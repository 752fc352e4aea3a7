/**
 The script interpreter (script.cpp:254-1053): `Exec` is the effect of one executed instruction
 outside the IF/ELSE/ENDIF family, `FlatStep` adds the bookkeeping of the main loop.
 */
module ScriptMachine {
  import opened Bytes
  import opened BigNum
  import opened ScriptBytes
  import opened Multisig
  import opened Wrappers

  // The nesting of conditionals is kept as a vector of flags. A run that fails keeps the stacks
  // as they were left, because callers look at them.

  const MAX_ELEMENT := 520
  const MAX_OPS := 201
  const MAX_STACK := 1000
  const MAX_SCRIPT := 10000
  const MAX_KEYS := 20

  const OP_NOP := 0x61
  const OP_IF := 0x63
  const OP_NOTIF := 0x64
  const OP_ELSE := 0x67
  const OP_ENDIF := 0x68
  const OP_VERIFY := 0x69
  const OP_TOALTSTACK := 0x6b
  const OP_FROMALTSTACK := 0x6c
  const OP_2DROP := 0x6d
  const OP_2DUP := 0x6e
  const OP_3DUP := 0x6f
  const OP_2OVER := 0x70
  const OP_2ROT := 0x71
  const OP_2SWAP := 0x72
  const OP_DEPTH := 0x74
  const OP_DROP := 0x75
  const OP_DUP := 0x76
  const OP_NIP := 0x77
  const OP_OVER := 0x78
  const OP_PICK := 0x79
  const OP_ROLL := 0x7a
  const OP_ROT := 0x7b
  const OP_SWAP := 0x7c
  const OP_TUCK := 0x7d
  const OP_SIZE := 0x82
  const OP_EQUAL := 0x87
  const OP_EQUALVERIFY := 0x88
  const OP_1ADD := 0x8b
  const OP_1SUB := 0x8c
  const OP_NEGATE := 0x8f
  const OP_ABS := 0x90
  const OP_NOT := 0x91
  const OP_0NOTEQUAL := 0x92
  const OP_ADD := 0x93
  const OP_SUB := 0x94
  const OP_BOOLAND := 0x9a
  const OP_BOOLOR := 0x9b
  const OP_NUMEQUAL := 0x9c
  const OP_NUMEQUALVERIFY := 0x9d
  const OP_NUMNOTEQUAL := 0x9e
  const OP_LESSTHAN := 0x9f
  const OP_GREATERTHAN := 0xa0
  const OP_LESSTHANOREQUAL := 0xa1
  const OP_GREATERTHANOREQUAL := 0xa2
  const OP_MIN := 0xa3
  const OP_MAX := 0xa4
  const OP_WITHIN := 0xa5
  const OP_RIPEMD160 := 0xa6
  const OP_HASH256 := 0xaa
  const OP_CODESEPARATOR := 0xab
  const OP_CHECKSIG := 0xac
  const OP_CHECKSIGVERIFY := 0xad
  const OP_CHECKMULTISIG := 0xae
  const OP_CHECKMULTISIGVERIFY := 0xaf
  const OP_NOP1 := 0xb0
  const OP_NOP10 := 0xb9

  /** What a script is run against: its bytes, the signature check for the transaction at hand (signature, key, script code), and the hash functions by opcode. */
  datatype Context = Context(script: Bytes, checkSig: (Bytes, Bytes, Bytes) -> bool, digest: (byte, Bytes) -> Bytes)

  /** An instruction with the offset just behind it. */
  datatype Op = Op(opcode: byte, data: Bytes, next: nat)

  /** `ops` is `nOpCount`, `codeStart` the offset of `pbegincodehash`; `sigChecks` counts the calls of `CheckSig` and is not in the source. */
  datatype Machine = Machine(stack: seq<Bytes>, alt: seq<Bytes>, ops: nat, codeStart: nat, sigChecks: nat)

  /** `Halt`: `EvalScript` returns false (or an exception is caught) in this state. */
  datatype Outcome = Go(m: Machine) | Halt(m: Machine)

  // ----- operands -----

  /** `CastToBool` (script.cpp:40): some byte is nonzero, other than a lone sign bit at the end. */
  predicate CastToBool(b: Bytes)
  {
    exists i :: 0 <= i < |b| && b[i] != 0 && !(i == |b| - 1 && b[i] == 0x80)
  }

  method CastToBoolLoop(b: Bytes) returns (r: bool)
    ensures r == CastToBool(b)
  {
    for i := 0 to |b|
      invariant forall j :: 0 <= j < i ==> b[j] == 0
    {
      if b[i] != 0 {
        if i == |b| - 1 && b[i] == 0x80 {
          return false;
        }
        return true;
      }
    }
    return false;
  }

  lemma {:induction false} FromLEZero(b: Bytes)
    ensures FromLE(b) == 0 <==> forall i :: 0 <= i < |b| ==> b[i] == 0
  {
    if b != [] {
      FromLEZero(b[1..]);
      assert forall i :: 1 <= i < |b| ==> b[i] == b[1..][i - 1];
    }
  }

  /** An operand is true exactly when the number it spells is not zero. */
  lemma TrueIffNonzero(b: Bytes)
    ensures CastToBool(b) <==> SetVch(b) != 0
  {
    if b != [] {
      var k := |b| - 1;
      var c := if b[k] >= 128 then b[k := b[k] - 128] else b;
      FromLEZero(c);
      if CastToBool(b) {
        var i :| 0 <= i < |b| && b[i] != 0 && !(i == |b| - 1 && b[i] == 0x80);
        assert c[i] != 0;
      } else {
        forall i | 0 <= i < |c|
          ensures c[i] == 0
        {
          assert b[i] == 0 || (i == k && b[i] == 0x80);
        }
      }
    }
  }

  /** `CastToBigNum`: operands of more than four bytes are refused. */
  function Number(b: Bytes): Option<int>
  {
    if |b| > 4 then None else Some(SetVch(b))
  }

  function Flag(b: bool): Bytes
  {
    if b then [1] else []
  }

  function Drop(s: seq<Bytes>, n: nat): seq<Bytes>
    requires n <= |s|
  {
    s[..|s| - n]
  }

  /** The `i`-th element from the top, the top being 1. */
  function Top(s: seq<Bytes>, i: nat): Bytes
    requires 1 <= i <= |s|
  {
    s[|s| - i]
  }

  // ----- instructions -----

  /** Stack instructions 0x6d to 0x7d (script.cpp:420-597), given their arity is met. */
  function Shuffle(opcode: byte, s: seq<Bytes>): (r: Option<seq<Bytes>>)
  {
    var n := |s|;
    match opcode
    case 0x6d => if n < 2 then None else Some(Drop(s, 2))
    case 0x6e => if n < 2 then None else Some(s + [s[n - 2], s[n - 1]])
    case 0x6f => if n < 3 then None else Some(s + [s[n - 3], s[n - 2], s[n - 1]])
    case 0x70 => if n < 4 then None else Some(s + [s[n - 4], s[n - 3]])
    case 0x71 => if n < 6 then None else Some(s[..n - 6] + s[n - 4..] + [s[n - 6], s[n - 5]])
    case 0x72 => if n < 4 then None else Some(s[n - 4 := s[n - 2]][n - 2 := s[n - 4]][n - 3 := s[n - 1]][n - 1 := s[n - 3]])
    case 0x73 => if n < 1 then None else Some(if CastToBool(s[n - 1]) then s + [s[n - 1]] else s)
    case 0x74 => Some(s + [GetVch(n)])
    case 0x75 => if n < 1 then None else Some(Drop(s, 1))
    case 0x76 => if n < 1 then None else Some(s + [s[n - 1]])
    case 0x77 => if n < 2 then None else Some(s[..n - 2] + [s[n - 1]])
    case 0x78 => if n < 2 then None else Some(s + [s[n - 2]])
    case 0x7b => if n < 3 then None else Some(s[..n - 3] + [s[n - 2], s[n - 1], s[n - 3]])
    case 0x7c => if n < 2 then None else Some(s[..n - 2] + [s[n - 1], s[n - 2]])
    case 0x7d => if n < 2 then None else Some(s[..n - 2] + [s[n - 1]] + s[n - 2..])
    case _ => None
  }

  /** OP_PICK and OP_ROLL (script.cpp:548). */
  function PickOrRoll(roll: bool, m: Machine): Outcome
  {
    var s := m.stack;
    if |s| < 2 then Halt(m)
    else
      match Number(Top(s, 1))
      case None => Halt(m)
      case Some(n) =>
        var t := Drop(s, 1);
        if n < 0 || n >= |t| then Halt(m.(stack := t))
        else
          var i := |t| - n - 1;
          Go(m.(stack := (if roll then t[..i] + t[i + 1..] else t) + [t[i]]))
  }

  function Unary(opcode: byte, n: int): int
  {
    match opcode
    case 0x8b => n + 1
    case 0x8c => n - 1
    case 0x8f => -n
    case 0x90 => if n < 0 then -n else n
    case 0x91 => if n == 0 then 1 else 0
    case _ => if n != 0 then 1 else 0
  }

  function BoolInt(b: bool): int { if b then 1 else 0 }

  function Binary(opcode: byte, a: int, b: int): int
  {
    match opcode
    case 0x93 => a + b
    case 0x94 => a - b
    case 0x9a => BoolInt(a != 0 && b != 0)
    case 0x9b => BoolInt(a != 0 || b != 0)
    case 0x9c => BoolInt(a == b)
    case 0x9d => BoolInt(a == b)
    case 0x9e => BoolInt(a != b)
    case 0x9f => BoolInt(a < b)
    case 0xa0 => BoolInt(a > b)
    case 0xa1 => BoolInt(a <= b)
    case 0xa2 => BoolInt(a >= b)
    case 0xa3 => if a < b then a else b
    case _ => if a > b then a else b
  }

  predicate IsUnary(opcode: byte)
  {
    opcode in {OP_1ADD, OP_1SUB, OP_NEGATE, OP_ABS, OP_NOT, OP_0NOTEQUAL}
  }

  predicate IsBinary(opcode: byte)
  {
    opcode in {OP_ADD, OP_SUB} || OP_BOOLAND <= opcode <= OP_MAX
  }

  /** A `...VERIFY` form: consume the truth value just pushed, or stop with it still there. */
  function Verify(m: Machine): Outcome
  {
    if |m.stack| > 0 && CastToBool(Top(m.stack, 1)) then Go(m.(stack := Drop(m.stack, 1))) else Halt(m)
  }

  function Numeric(opcode: byte, m: Machine): Outcome
  {
    var s := m.stack;
    if IsUnary(opcode) then
      if |s| < 1 || Number(Top(s, 1)).None? then Halt(m)
      else Go(m.(stack := Drop(s, 1) + [GetVch(Unary(opcode, Number(Top(s, 1)).value))]))
    else if IsBinary(opcode) then
      if |s| < 2 || Number(Top(s, 2)).None? || Number(Top(s, 1)).None? then Halt(m)
      else
        var r := m.(stack := Drop(s, 2) + [GetVch(Binary(opcode, Number(Top(s, 2)).value, Number(Top(s, 1)).value))]);
        if opcode == OP_NUMEQUALVERIFY then Verify(r) else Go(r)
    else
      if |s| < 3 || Number(Top(s, 3)).None? || Number(Top(s, 2)).None? || Number(Top(s, 1)).None? then Halt(m)
      else
        var x, lo, hi := Number(Top(s, 3)).value, Number(Top(s, 2)).value, Number(Top(s, 1)).value;
        Go(m.(stack := Drop(s, 3) + [Flag(lo <= x < hi)]))
  }

  function Equal(verify: bool, m: Machine): Outcome
  {
    var s := m.stack;
    if |s| < 2 then Halt(m)
    else
      var r := m.(stack := Drop(s, 2) + [Flag(Top(s, 2) == Top(s, 1))]);
      if verify then Verify(r) else Go(r)
  }

  /** The script code a signature commits to: everything behind the last code separator, without the signatures themselves. */
  function CodeWithout(code: Bytes, sigs: seq<Bytes>): Bytes
    decreases |sigs|
  {
    if sigs == [] then code else CodeWithout(DeleteAll(code, Push(sigs[0])).0, sigs[1..])
  }

  function CodeFrom(script: Bytes, start: nat): Bytes
  {
    if start <= |script| then script[start..] else []
  }

  /** OP_CHECKSIG and OP_CHECKSIGVERIFY (script.cpp:925). */
  function CheckSigOp(ctx: Context, verify: bool, m: Machine): Outcome
  {
    var s := m.stack;
    if |s| < 2 then Halt(m)
    else
      var sig, key := Top(s, 2), Top(s, 1);
      var code := CodeWithout(CodeFrom(ctx.script, m.codeStart), [sig]);
      var r := m.(stack := Drop(s, 2) + [Flag(ctx.checkSig(sig, key, code))], sigChecks := m.sigChecks + 1);
      if verify then Verify(r) else Go(r)
  }

  /** Elements `from`, `from + 1`, ... below the top, `n` of them, in that order. */
  function Below(s: seq<Bytes>, from: nat, n: nat): (r: seq<Bytes>)
    requires from >= 1 && from + n - 1 <= |s|
    ensures |r| == n
    ensures forall i :: 0 <= i < n ==> r[i] == Top(s, from + i)
  {
    seq(n, i requires 0 <= i < n => Top(s, from + i))
  }

  /** What OP_CHECKMULTISIG finds on the stack: the counts, or where it gives up. */
  datatype Multi = Multi(nKeys: nat, nSigs: nat, m: Machine) | Bad(m: Machine)

  /** The operand checks of OP_CHECKMULTISIG (script.cpp:965-985). The keys count against the operation limit. */
  function MultiOperands(m: Machine): (r: Multi)
    ensures r.Multi? ==>
      && r.nSigs <= r.nKeys <= MAX_KEYS && r.nKeys + r.nSigs + 3 <= |m.stack|
      && r.m == m.(ops := m.ops + r.nKeys) && r.m.ops <= MAX_OPS
      && Number(Top(m.stack, 1)) == Some(r.nKeys) && Number(Top(m.stack, r.nKeys + 2)) == Some(r.nSigs)
    ensures r.Bad? ==> r.m.stack == m.stack && r.m.sigChecks == m.sigChecks && r.m.alt == m.alt
  {
    var s := m.stack;
    if |s| < 1 || Number(Top(s, 1)).None? then Bad(m)
    else
      var nKeys := Number(Top(s, 1)).value;
      if nKeys < 0 || nKeys > MAX_KEYS then Bad(m)
      else
        var m1 := m.(ops := m.ops + nKeys);
        if m1.ops > MAX_OPS || |s| < nKeys + 2 || Number(Top(s, nKeys + 2)).None? then Bad(m1)
        else
          var nSigs := Number(Top(s, nKeys + 2)).value;
          if nSigs < 0 || nSigs > nKeys || |s| < nKeys + nSigs + 3 then Bad(m1)
          else Multi(nKeys, nSigs, m1)
  }

  /** The signature check for one script code. */
  function CheckUnder(ctx: Context, code: Bytes): (c: Check)
    ensures forall sig, key :: c(sig, key) == ctx.checkSig(sig, key, code)
  {
    (sig, key) => ctx.checkSig(sig, key, code)
  }

  /** OP_CHECKMULTISIG and OP_CHECKMULTISIGVERIFY (script.cpp:960): one element more than it uses is popped. */
  function CheckMultisigOp(ctx: Context, verify: bool, m: Machine): Outcome
  {
    match MultiOperands(m)
    case Bad(m1) => Halt(m1)
    case Multi(nKeys, nSigs, m1) =>
      var r := Answered(ctx, m1, nKeys, nSigs);
      if verify then Verify(r) else Go(r)
  }

  /** The signatures matched against the keys, with the answer in the place of all operands. */
  function Answered(ctx: Context, m: Machine, nKeys: nat, nSigs: nat): Machine
    requires nKeys + nSigs + 3 <= |m.stack|
  {
    var keys, sigs := Below(m.stack, 2, nKeys), Below(m.stack, nKeys + 3, nSigs);
    var code := CodeWithout(CodeFrom(ctx.script, m.codeStart), sigs);
    var (ok, calls) := Match(sigs, keys, CheckUnder(ctx, code));
    m.(stack := Drop(m.stack, nKeys + nSigs + 3) + [Flag(ok)], sigChecks := m.sigChecks + calls)
  }

  /** One executed instruction other than a push of data or a conditional. */
  function Exec(ctx: Context, op: Op, m: Machine): Outcome
  {
    var opcode, s := op.opcode, m.stack;
    if opcode <= OP_PUSHDATA4 then Go(m.(stack := s + [op.data]))
    else if opcode <= OP_16 && opcode != OP_RESERVED then Go(m.(stack := s + [GetVch(opcode - (OP_1 - 1))]))
    else if opcode == OP_NOP || OP_NOP1 <= opcode <= OP_NOP10 then Go(m)
    else if opcode == OP_VERIFY then Verify(m)
    else if opcode == OP_TOALTSTACK then
      if |s| < 1 then Halt(m) else Go(m.(stack := Drop(s, 1), alt := m.alt + [Top(s, 1)]))
    else if opcode == OP_FROMALTSTACK then
      if |m.alt| < 1 then Halt(m) else Go(m.(stack := s + [Top(m.alt, 1)], alt := Drop(m.alt, 1)))
    else if opcode == OP_PICK || opcode == OP_ROLL then PickOrRoll(opcode == OP_ROLL, m)
    else if OP_2DROP <= opcode <= OP_TUCK then
      (match Shuffle(opcode, s) case None => Halt(m) case Some(t) => Go(m.(stack := t)))
    else if opcode == OP_SIZE then
      if |s| < 1 then Halt(m) else Go(m.(stack := s + [GetVch(|Top(s, 1)|)]))
    else if opcode == OP_EQUAL || opcode == OP_EQUALVERIFY then Equal(opcode == OP_EQUALVERIFY, m)
    else if IsUnary(opcode) || IsBinary(opcode) || opcode == OP_WITHIN then Numeric(opcode, m)
    else if OP_RIPEMD160 <= opcode <= OP_HASH256 then
      if |s| < 1 then Halt(m) else Go(m.(stack := Drop(s, 1) + [ctx.digest(opcode, Top(s, 1))]))
    else if opcode == OP_CODESEPARATOR then Go(m.(codeStart := op.next))
    else if opcode == OP_CHECKSIG || opcode == OP_CHECKSIGVERIFY then CheckSigOp(ctx, opcode == OP_CHECKSIGVERIFY, m)
    else if opcode == OP_CHECKMULTISIG || opcode == OP_CHECKMULTISIGVERIFY then
      CheckMultisigOp(ctx, opcode == OP_CHECKMULTISIGVERIFY, m)
    else Halt(m)
  }

  // ----- the main loop -----

  /** The opcodes refused wherever they stand (script.cpp:285-300). */
  predicate Disabled(opcode: byte)
  {
    0x7e <= opcode <= 0x81 || 0x83 <= opcode <= 0x86 || opcode in {0x8d, 0x8e} || 0x95 <= opcode <= 0x99
  }

  /** The checks made on every instruction, executed or not (script.cpp:280-300). */
  function Account(op: Op, m: Machine): (r: Outcome)
  {
    if |op.data| > MAX_ELEMENT then Halt(m)
    else if op.opcode <= OP_16 then Go(m)
    else
      var m1 := m.(ops := m.ops + 1);
      if m1.ops > MAX_OPS || Disabled(op.opcode) then Halt(m1) else Go(m1)
  }

  /** The size limit checked after every instruction. */
  function Limit(m: Machine): Outcome
  {
    if |m.stack| + |m.alt| > MAX_STACK then Halt(m) else Go(m)
  }

  predicate AllTrue(flags: seq<bool>)
  {
    forall i :: 0 <= i < |flags| ==> flags[i]
  }

  /** IF to ENDIF, with VERIF and VERNOTIF between them: looked at even when not executed. */
  predicate IsControl(opcode: byte)
  {
    OP_IF <= opcode <= OP_ENDIF
  }

  /** The condition of an executed IF or NOTIF: its value, and the machine without it. */
  function Condition(op: Op, m: Machine): Option<(bool, Machine)>
  {
    if |m.stack| < 1 then None
    else
      var v := CastToBool(Top(m.stack, 1));
      Some((if op.opcode == OP_NOTIF then !v else v, m.(stack := Drop(m.stack, 1))))
  }

  /** One turn of the main loop: fail, or go on with a machine and a vector `vfExec`. */
  datatype Turn = Fail(m: Machine) | More(m: Machine, flags: seq<bool>)

  function Control(op: Op, m: Machine, flags: seq<bool>): Turn
  {
    if op.opcode == OP_IF || op.opcode == OP_NOTIF then
      if AllTrue(flags) then
        (match Condition(op, m) case None => Fail(m) case Some(c) => More(c.1, flags + [c.0]))
      else More(m, flags + [false])
    else if op.opcode == OP_ELSE then
      if flags == [] then Fail(m) else More(m, flags[|flags| - 1 := !flags[|flags| - 1]])
    else if op.opcode == OP_ENDIF then
      if flags == [] then Fail(m) else More(m, flags[..|flags| - 1])
    else Fail(m)
  }

  function FlatStep(ctx: Context, op: Op, m: Machine, flags: seq<bool>): Turn
  {
    match Account(op, m)
    case Halt(m1) => Fail(m1)
    case Go(m1) =>
      var turn :=
        if IsControl(op.opcode) then Control(op, m1, flags)
        else if AllTrue(flags) then
          (match Exec(ctx, op, m1) case Halt(m2) => Fail(m2) case Go(m2) => More(m2, flags))
        else More(m1, flags);
      match turn
      case Fail(_) => turn
      case More(m2, flags2) =>
        match Limit(m2) case Halt(_) => Fail(m2) case Go(_) => turn
  }

  datatype Result = Result(ok: bool, m: Machine)

  /** The main loop on the instructions still ahead; `complete` says that no malformed bytes follow them. */
  function FlatRun(ctx: Context, ops: seq<Op>, complete: bool, m: Machine, flags: seq<bool>): (r: Result)
    decreases |ops|
  {
    if ops == [] then Result(complete && flags == [], m)
    else
      match FlatStep(ctx, ops[0], m, flags)
      case Fail(m1) => Result(false, m1)
      case More(m1, flags1) => FlatRun(ctx, ops[1..], complete, m1, flags1)
  }

  // ----- from bytes -----

  /** The instructions from offset `pc` on. */
  function OpsFrom(script: Bytes, pc: nat): (r: seq<Op>)
    requires pc <= |script|
    decreases |script| - pc
  {
    match GetOp(script[pc..])
    case None => []
    case Some(i) => [Op(i.opcode, i.data, pc + i.size)] + OpsFrom(script, pc + i.size)
  }

  /** No malformed bytes from offset `pc` on. */
  predicate Complete(script: Bytes, pc: nat)
    requires pc <= |script|
    decreases |script| - pc
  {
    match GetOp(script[pc..])
    case None => pc == |script|
    case Some(i) => Complete(script, pc + i.size)
  }

  function Start(stack: seq<Bytes>): Machine
  {
    Machine(stack, [], 0, 0, 0)
  }

  /** `EvalScript` (script.cpp:254). */
  function Eval(ctx: Context, stack: seq<Bytes>): (r: Result)
  {
    if |ctx.script| > MAX_SCRIPT then Result(false, Start(stack))
    else FlatRun(ctx, OpsFrom(ctx.script, 0), Complete(ctx.script, 0), Start(stack), [])
  }

  /** The loop of `EvalScript` over its iterators and vectors. */
  method EvalScript(ctx: Context, stack0: seq<Bytes>) returns (ok: bool, stack: seq<Bytes>)
    ensures ok == Eval(ctx, stack0).ok && stack == Eval(ctx, stack0).m.stack
  {
    hide GetOp, Exec, Account, Control, Limit;
    var script := ctx.script;
    var pc: nat := 0;
    var m := Start(stack0);
    var vfExec: seq<bool> := [];
    if |script| > MAX_SCRIPT {
      return false, m.stack;
    }
    while pc < |script|
      invariant pc <= |script|
      invariant Eval(ctx, stack0) == FlatRun(ctx, OpsFrom(script, pc), Complete(script, pc), m, vfExec)
    {
      var fExec := forall i :: 0 <= i < |vfExec| ==> vfExec[i];
      var i := GetOp(script[pc..]);
      if i.None? {
        return false, m.stack;
      }
      var op := Op(i.value.opcode, i.value.data, pc + i.value.size);
      assert OpsFrom(script, pc)[1..] == OpsFrom(script, op.next);
      var counted := Account(op, m);
      m := counted.m;
      if counted.Halt? {
        return false, m.stack;
      }
      if IsControl(op.opcode) {
        var turn := Control(op, m, vfExec);
        m := turn.m;
        if turn.Fail? {
          return false, m.stack;
        }
        vfExec := turn.flags;
      } else if fExec {
        var outcome := Exec(ctx, op, m);
        m := outcome.m;
        if outcome.Halt? {
          return false, m.stack;
        }
      }
      var limited := Limit(m);
      if limited.Halt? {
        return false, m.stack;
      }
      pc := op.next;
    }
    EmptyScript();
    assert script[pc..] == [];
    return vfExec == [], m.stack;
  }
}
