/**
 The static signature-operation count (script.cpp:1794-1840) and what it is for: an upper
 bound, known before a script runs, on the signature checks that running it can cost.
 */
module ScriptSigops {
  import opened Bytes
  import opened BigNum
  import opened ScriptBytes
  import opened Multisig
  import opened ScriptMachine
  import opened Wrappers

  const OP_INVALIDOPCODE := 0xff
  const OP_HASH160 := 0xa9

  /** Contribution of one instruction, given the opcode standing before it. */
  function Cost(opcode: byte, last: byte, accurate: bool): (n: nat)
    ensures n <= 20
  {
    if opcode == OP_CHECKSIG || opcode == OP_CHECKSIGVERIFY then 1
    else if opcode == OP_CHECKMULTISIG || opcode == OP_CHECKMULTISIGVERIFY then
      if accurate && OP_1 <= last <= OP_16 then DecodeOpN(last) else 20
    else 0
  }

  function SigOps(ops: seq<Op>, last: byte, accurate: bool): (n: nat)
    decreases |ops|
  {
    if ops == [] then 0 else Cost(ops[0].opcode, last, accurate) + SigOps(ops[1..], ops[0].opcode, accurate)
  }

  /** One for each signature, and for a multisig the number pushed right before it where that is asked for and there is one, else 20. */
  lemma {:induction false} SigOpsAre(op: Op, ops: seq<Op>, last: byte, accurate: bool)
    ensures SigOps([op] + ops, last, accurate)
         == (if op.opcode in {0xac, 0xad} then 1
             else if op.opcode in {0xae, 0xaf} then if accurate && 0x51 <= last <= 0x60 then last - 0x50 else 20
             else 0) + SigOps(ops, op.opcode, accurate)
  {
    assert ([op] + ops)[0] == op && ([op] + ops)[1..] == ops;
  }

  /** The count of a whole script. */
  function Count(script: Bytes, accurate: bool): (n: nat)
  {
    SigOps(OpsFrom(script, 0), OP_INVALIDOPCODE, accurate)
  }

  /** Counters are unsigned and have 32 bits. */
  const WORD: nat := 0x1_0000_0000

  /** An instruction counts for at most 20, so the counter cannot wrap for scripts that may be run, and by far. */
  lemma {:induction false} CountFits(script: Bytes, pc: nat, last: byte, accurate: bool)
    requires pc <= |script|
    ensures SigOps(OpsFrom(script, pc), last, accurate) <= 20 * (|script| - pc)
    ensures |script| <= 200_000_000 ==> SigOps(OpsFrom(script, pc), last, accurate) < WORD
    decreases |script| - pc
  {
    hide GetOp;
    match GetOp(script[pc..])
    case None =>
    case Some(i) =>
      CountFits(script, pc + i.size, i.opcode, accurate);
      assert OpsFrom(script, pc)[1..] == OpsFrom(script, pc + i.size);
  }

  /** `GetSigOpCount(bool)`: stops quietly at malformed bytes. */
  method GetSigOpCount(script: Bytes, accurate: bool) returns (n: nat)
    ensures n == Count(script, accurate) % 0x1_0000_0000
    ensures |script| <= 200_000_000 ==> n == Count(script, accurate)
  {
    hide GetOp, OpsFrom, SigOps;
    CountFits(script, 0, OP_INVALIDOPCODE, accurate);
    n := 0;
    ghost var total: nat := 0;
    var pc: nat := 0;
    var last: byte := OP_INVALIDOPCODE;
    while pc < |script|
      invariant pc <= |script| && n == total % WORD
      invariant Count(script, accurate) == total + SigOps(OpsFrom(script, pc), last, accurate)
    {
      var i := GetOp(script[pc..]);
      CountStep(script, pc, last, accurate);
      if i.None? {
        return;
      }
      var opcode := i.value.opcode;
      Wrapped(total, Cost(opcode, last, accurate));
      total := total + Cost(opcode, last, accurate);
      if opcode == OP_CHECKSIG || opcode == OP_CHECKSIGVERIFY {
        n := (n + 1) % WORD;
      } else if opcode == OP_CHECKMULTISIG || opcode == OP_CHECKMULTISIGVERIFY {
        if accurate && OP_1 <= last <= OP_16 {
          n := (n + DecodeOpN(last)) % WORD;
        } else {
          n := (n + 20) % WORD;
        }
      }
      last := opcode;
      pc := pc + i.value.size;
    }
    EmptyScript();
    assert script[pc..] == [];
    CountStep(script, pc, last, accurate);
  }

  /** One instruction counted. */
  lemma CountStep(script: Bytes, pc: nat, last: byte, accurate: bool)
    requires pc <= |script|
    ensures match GetOp(script[pc..])
            case None => SigOps(OpsFrom(script, pc), last, accurate) == 0
            case Some(i) =>
              SigOps(OpsFrom(script, pc), last, accurate)
              == Cost(i.opcode, last, accurate) + SigOps(OpsFrom(script, pc + i.size), i.opcode, accurate)
  {
    hide GetOp, Cost;
    match GetOp(script[pc..])
    case None =>
    case Some(i) => assert OpsFrom(script, pc)[1..] == OpsFrom(script, pc + i.size);
  }

  lemma Wrapped(total: nat, more: nat)
    ensures (total + more) % WORD == (total % WORD + more) % WORD
  {
    var q := total / WORD;
    assert total + more == WORD * q + (total % WORD + more);
    var r := total % WORD + more;
    ModUnique(total + more, WORD, q + r / WORD, r % WORD);
  }

  /** Looking at the number in front of a multisig opcode never raises the count. */
  lemma {:induction false} AccurateIsTighter(ops: seq<Op>, last: byte)
    ensures SigOps(ops, last, true) <= SigOps(ops, last, false)
    decreases |ops|
  {
    if ops != [] {
      AccurateIsTighter(ops[1..], ops[0].opcode);
      CostIgnoresLast(ops[1..], ops[0].opcode);
    }
  }

  lemma CostIgnoresLast(ops: seq<Op>, last: byte)
    ensures SigOps(ops, last, false) == SigOps(ops, OP_INVALIDOPCODE, false)
  {
  }

  // ----- the dynamic side -----

  /** An OP_n that was executed just before has left its number on top. */
  predicate OnTop(m: Machine, last: byte)
  {
    OP_1 <= last <= OP_16 ==> |m.stack| > 0 && Top(m.stack, 1) == GetVch(DecodeOpN(last))
  }

  /** Each check made so far has been paid for with an operation counted against the limit of 201. */
  predicate Paid(m: Machine)
  {
    m.sigChecks <= m.ops <= MAX_OPS
  }

  lemma NumericMakesNoChecks(opcode: byte, m: Machine)
    ensures Numeric(opcode, m).m.sigChecks == m.sigChecks && Numeric(opcode, m).m.ops == m.ops
  {
  }

  lemma PickMakesNoChecks(roll: bool, m: Machine)
    ensures PickOrRoll(roll, m).m.sigChecks == m.sigChecks && PickOrRoll(roll, m).m.ops == m.ops
  {
  }

  /** The keys a multisig reads are those its static cost assumes, and each check uses up a key. */
  lemma MultisigCost(ctx: Context, verify: bool, m: Machine, last: byte)
    requires OnTop(m, last) && m.sigChecks <= m.ops <= MAX_OPS
    ensures var r := CheckMultisigOp(ctx, verify, m);
            && r.m.sigChecks <= m.sigChecks + Cost(OP_CHECKMULTISIG, last, true)
            && r.m.sigChecks <= MAX_OPS
            && (r.Go? ==> Paid(r.m))
  {
    hide GetVch, SetVch;
    if OP_1 <= last <= OP_16 {
      SetGetVch(DecodeOpN(last));
    }
  }

  /** What one executed instruction costs. The operation it counts for itself is already in `m.ops`. */
  lemma ExecCost(ctx: Context, op: Op, m: Machine, last: byte)
    requires OnTop(m, last) && m.sigChecks + (if op.opcode > OP_16 then 1 else 0) <= m.ops <= MAX_OPS
    ensures var r := Exec(ctx, op, m);
            && r.m.sigChecks <= m.sigChecks + Cost(op.opcode, last, true)
            && r.m.sigChecks <= MAX_OPS
            && (r.Go? ==> Paid(r.m) && OnTop(r.m, op.opcode))
  {
    hide Numeric, Shuffle, PickOrRoll, CheckMultisigOp, CodeWithout, GetVch;
    var opcode := op.opcode;
    if opcode == OP_CHECKMULTISIG || opcode == OP_CHECKMULTISIGVERIFY {
      MultisigCost(ctx, opcode == OP_CHECKMULTISIGVERIFY, m, last);
    }
    NumericMakesNoChecks(opcode, m);
    PickMakesNoChecks(opcode == OP_ROLL, m);
  }

  /** What one turn of the loop costs, executed or skipped. */
  lemma StepCost(ctx: Context, op: Op, m: Machine, flags: seq<bool>, last: byte)
    requires Paid(m) && (AllTrue(flags) ==> OnTop(m, last))
    ensures var r := FlatStep(ctx, op, m, flags);
            && r.m.sigChecks <= m.sigChecks + Cost(op.opcode, last, true)
            && r.m.sigChecks <= MAX_OPS
            && (r.More? ==> Paid(r.m) && (AllTrue(r.flags) ==> OnTop(r.m, op.opcode)))
  {
    hide Exec, AllTrue;
    match Account(op, m)
    case Halt(_) =>
    case Go(m1) =>
      if !IsControl(op.opcode) && AllTrue(flags) {
        ExecCost(ctx, op, m1, last);
      }
  }

  /** From any point of any run: the checks still to come are within the static count of what is left, and within the operation limit. */
  lemma {:induction false} RunCost(ctx: Context, ops: seq<Op>, complete: bool, m: Machine, flags: seq<bool>, last: byte)
    requires Paid(m) && (AllTrue(flags) ==> OnTop(m, last))
    ensures FlatRun(ctx, ops, complete, m, flags).m.sigChecks <= m.sigChecks + SigOps(ops, last, true)
    ensures FlatRun(ctx, ops, complete, m, flags).m.sigChecks <= MAX_OPS
    decreases |ops|
  {
    hide FlatStep, AllTrue;
    if ops != [] {
      StepCost(ctx, ops[0], m, flags, last);
      match FlatStep(ctx, ops[0], m, flags)
      case Fail(_) =>
      case More(m1, flags1) => RunCost(ctx, ops[1..], complete, m1, flags1, ops[0].opcode);
    }
  }

  /** Static counting is sound: on any stack, whether the script succeeds or fails. */
  lemma CountBoundsChecks(ctx: Context, stack: seq<Bytes>)
    ensures var checks := Eval(ctx, stack).m.sigChecks;
            && checks <= Count(ctx.script, true) <= Count(ctx.script, false) && checks <= 201
            && checks <= Count(ctx.script, true) % WORD && checks <= Count(ctx.script, false) % WORD
  {
    hide FlatRun, OpsFrom, SigOps;
    CountFits(ctx.script, 0, OP_INVALIDOPCODE, true);
    CountFits(ctx.script, 0, OP_INVALIDOPCODE, false);
    AccurateIsTighter(OpsFrom(ctx.script, 0), OP_INVALIDOPCODE);
    RunCost(ctx, OpsFrom(ctx.script, 0), Complete(ctx.script, 0), Start(stack), [], OP_INVALIDOPCODE);
  }

  // ----- pay to script hash (script.cpp:1818-1851) -----

  predicate IsPayToScriptHash(s: Bytes)
  {
    |s| == 23 && s[0] == OP_HASH160 && s[1] == 0x14 && s[22] == OP_EQUAL
  }

  /** The operand of the last of a list of pushes; nothing if there is none. */
  function LastData(ops: seq<Op>): Bytes
  {
    if ops == [] then [] else ops[|ops| - 1].data
  }

  predicate Pushes(ops: seq<Op>)
  {
    forall i :: 0 <= i < |ops| ==> ops[i].opcode <= OP_16
  }

  /** The count for spending `pubKey` with `sigScript`: of the script last pushed when the former is a script hash. */
  function SpendCount(pubKey: Bytes, sigScript: Bytes): (n: nat)
  {
    var ops := OpsFrom(sigScript, 0);
    if !IsPayToScriptHash(pubKey) then Count(pubKey, true)
    else if Pushes(ops) && Complete(sigScript, 0) then Count(LastData(ops), true)
    else 0
  }

  /** `GetSigOpCount(const CScript&)`. */
  method GetSpendSigOpCount(pubKey: Bytes, sigScript: Bytes) returns (n: nat)
    ensures n == SpendCount(pubKey, sigScript) % 0x1_0000_0000
  {
    hide GetOp, Count, IsPayToScriptHash;
    if !IsPayToScriptHash(pubKey) {
      n := GetSigOpCount(pubKey, true);
      return;
    }
    var pc: nat := 0;
    var data: Bytes := [];
    ghost var ops, done := OpsFrom(sigScript, 0), 0;
    while pc < |sigScript|
      invariant pc <= |sigScript| && 0 <= done <= |ops|
      invariant ops[done..] == OpsFrom(sigScript, pc) && Complete(sigScript, 0) == Complete(sigScript, pc)
      invariant Pushes(ops[..done]) && data == LastData(ops[..done])
    {
      var i := GetOp(sigScript[pc..]);
      if i.None? {
        return 0;
      }
      assert ops[done] == OpsFrom(sigScript, pc)[0];
      assert ops[done + 1..] == OpsFrom(sigScript, pc)[1..];
      data := i.value.data;
      if i.value.opcode > OP_16 {
        return 0;
      }
      pc, done := pc + i.value.size, done + 1;
    }
    EmptyScript();
    assert sigScript[pc..] == [];
    assert ops[..done] == ops;
    n := GetSigOpCount(data, true);
  }

  /** What a successful run of pushes leaves on top: the last operand, or a byte that is no script with checks. */
  predicate TopFromLast(stack: seq<Bytes>, ops: seq<Op>)
  {
    |stack| > 0 && ops != [] &&
    var op, top := ops[|ops| - 1], Top(stack, 1);
    if op.opcode <= OP_PUSHDATA4 then top == op.data
    else op.opcode != OP_RESERVED && top == GetVch(op.opcode - (OP_1 - 1))
  }

  /** One push, executed. */
  lemma PushStep(ctx: Context, op: Op, m: Machine)
    requires op.opcode <= OP_16
    ensures match FlatStep(ctx, op, m, [])
            case Fail(_) => true
            case More(m1, flags) => flags == [] && TopFromLast(m1.stack, [op])
  {
    hide GetVch;
  }

  lemma {:induction false} RunPushes(ctx: Context, ops: seq<Op>, complete: bool, m: Machine)
    requires Pushes(ops) && ops != [] && FlatRun(ctx, ops, complete, m, []).ok
    ensures TopFromLast(FlatRun(ctx, ops, complete, m, []).m.stack, ops)
    decreases |ops|
  {
    hide FlatStep, GetVch;
    PushStep(ctx, ops[0], m);
    match FlatStep(ctx, ops[0], m, [])
    case Fail(_) =>
    case More(m1, _) =>
      if |ops| > 1 {
        assert ops[1..][|ops| - 2] == ops[|ops| - 1];
        RunPushes(ctx, ops[1..], complete, m1);
      } else {
        assert ops == [ops[0]];
      }
  }

  lemma {:induction false} FreeOps(ops: seq<Op>, last: byte)
    requires forall i :: 0 <= i < |ops| ==> !(OP_CHECKSIG <= ops[i].opcode <= OP_CHECKMULTISIGVERIFY)
    ensures SigOps(ops, last, true) == 0
    decreases |ops|
  {
    if ops != [] {
      FreeOps(ops[1..], ops[0].opcode);
    }
  }

  /** A small integer read as a script has no signature operations. */
  lemma NumberIsNoScript(opcode: byte)
    requires OP_1NEGATE <= opcode <= OP_16 && opcode != OP_RESERVED
    ensures Count(GetVch(opcode - (OP_1 - 1)), true) == 0
  {
    var v: int := opcode - (OP_1 - 1);
    var s := GetVch(v);
    if v == -1 {
      assert Magnitude(1) == [1];
      assert s == [0x81];
      EmptyScript();
      assert s[1..] == [];
      assert GetOp(s) == Some(Instr(0x81, [], 1));
      assert s[0..] == s;
      assert OpsFrom(s, 1) == [];
      FreeOps(OpsFrom(s, 0), OP_INVALIDOPCODE);
    } else {
      assert s == [v];
      assert s[0..] == s;
      assert GetOp(s).None?;
    }
  }

  /** The script a spender supplies for a script hash costs no more than the count announced. */
  lemma SuppliedScript(ctx: Context, stack: seq<Bytes>)
    requires Pushes(OpsFrom(ctx.script, 0)) && Eval(ctx, stack).ok && OpsFrom(ctx.script, 0) != []
    ensures var after := Eval(ctx, stack).m.stack;
            |after| > 0 && Count(Top(after, 1), true) <= Count(LastData(OpsFrom(ctx.script, 0)), true)
  {
    hide FlatRun, GetVch, Count;
    var ops := OpsFrom(ctx.script, 0);
    RunPushes(ctx, ops, Complete(ctx.script, 0), Start(stack));
    var opcode := ops[|ops| - 1].opcode;
    if opcode > OP_PUSHDATA4 {
      NumberIsNoScript(opcode);
    }
  }

  // ----- the template -----

  lemma ScriptHashOps(s: Bytes)
    requires IsPayToScriptHash(s)
    ensures OpsFrom(s, 0) == [Op(OP_HASH160, [], 1), Op(0x14, s[2..22], 22), Op(OP_EQUAL, [], 23)]
    ensures Count(s, true) == 0
  {
    assert s[0..] == s && s[1..][1..21] == s[2..22];
    EmptyScript();
    assert s[23..] == [];
    assert GetOp(s[22..]) == Some(Instr(OP_EQUAL, [], 1));
    assert OpsFrom(s, 22) == [Op(OP_EQUAL, [], 23)];
    assert GetOp(s[1..]) == Some(Instr(0x14, s[2..22], 21));
    assert OpsFrom(s, 1) == [Op(0x14, s[2..22], 22)] + OpsFrom(s, 22);
    assert GetOp(s) == Some(Instr(OP_HASH160, [], 1));
    assert OpsFrom(s, 0) == [Op(OP_HASH160, [], 1)] + OpsFrom(s, 1);
    FreeOps(OpsFrom(s, 0), OP_INVALIDOPCODE);
  }

  lemma ScriptHashNeedsOperand(ctx: Context)
    requires IsPayToScriptHash(ctx.script)
    ensures !Eval(ctx, []).ok
  {
    hide Numeric, Shuffle, PickOrRoll, CheckMultisigOp, CheckSigOp, GetOp, OpsFrom;
    ScriptHashOps(ctx.script);
  }

  /** Instructions that push and nothing else, as bytes. */
  predicate PushParts(parts: seq<Bytes>)
  {
    forall k :: 0 <= k < |parts| ==> parts[k] != [] && parts[k][0] <= OP_16
  }

  lemma PushesCons(x: Bytes, parts: seq<Bytes>, o: Op, ops: seq<Op>)
    requires x != [] && x[0] == o.opcode
    ensures PushParts([x] + parts) <==> x[0] <= OP_16 && PushParts(parts)
    ensures Pushes([o] + ops) <==> o.opcode <= OP_16 && Pushes(ops)
  {
    assert ([x] + parts)[0] == x && forall k :: 0 <= k < |parts| ==> ([x] + parts)[k + 1] == parts[k];
    assert ([o] + ops)[0] == o && forall k :: 0 <= k < |ops| ==> ([o] + ops)[k + 1] == ops[k];
  }

  /** The push-only test of the byte loop, on the instruction list the interpreter reads. */
  lemma {:induction false} PushOnlyIsPushes(s: Bytes, pc: nat)
    requires pc <= |s|
    ensures Tail(s[pc..]) == [] && PushParts(Instructions(s[pc..])) <==> Complete(s, pc) && Pushes(OpsFrom(s, pc))
    decreases |s| - pc
  {
    hide GetOp, PushParts, Pushes;
    match GetOp(s[pc..])
    case None =>
      NoPushes();
    case Some(i) =>
      assert s[pc..][i.size..] == s[pc + i.size..];
      PushOnlyIsPushes(s, pc + i.size);
      OpcodeFirst(s[pc..]);
      PushesCons(s[pc..][..i.size], Instructions(s[pc + i.size..]), Op(i.opcode, i.data, pc + i.size), OpsFrom(s, pc + i.size));
  }

  lemma NoPushes()
    ensures PushParts([]) && Pushes([])
  {
  }

  lemma OpcodeFirst(s: Bytes)
    requires GetOp(s).Some?
    ensures 0 < GetOp(s).value.size <= |s| && s[..GetOp(s).value.size][0] == GetOp(s).value.opcode
  {
  }

  // ----- spending (script.cpp:1575) -----

  /** What `VerifyScript` accepts. */
  predicate Accepts(sigCtx: Context, pubCtx: Context, hashed: bool)
  {
    var r1 := Eval(sigCtx, []);
    var r2 := Eval(pubCtx, r1.m.stack);
    && r1.ok && r2.ok
    && |r2.m.stack| > 0 && CastToBool(Top(r2.m.stack, 1))
    && (hashed && IsPayToScriptHash(pubCtx.script) ==>
          && Complete(sigCtx.script, 0) && Pushes(OpsFrom(sigCtx.script, 0))
          && |r1.m.stack| > 0
          && var r3 := Eval(pubCtx.(script := Top(r1.m.stack, 1)), Drop(r1.m.stack, 1));
             r3.ok && |r3.m.stack| > 0 && CastToBool(Top(r3.m.stack, 1)))
  }

  /**
   Runs the spender's script, the owner's script and, for a script hash, the script supplied by
   the spender. The signature checks of all three stay within the two static counts.
   */
  method VerifyScript(sigScript: Bytes, pubKey: Bytes, hashed: bool,
                      checkSig: (Bytes, Bytes, Bytes) -> bool, digest: (byte, Bytes) -> Bytes)
    returns (ok: bool, ghost checks: nat)
    ensures ok <==> Accepts(Context(sigScript, checkSig, digest), Context(pubKey, checkSig, digest), hashed)
    ensures checks <= Count(sigScript, true) + SpendCount(pubKey, sigScript)
  {
    hide Eval, Count, CastToBool, Complete, Pushes, OpsFrom, LastData, Instructions, Tail;
    var sigCtx, pubCtx := Context(sigScript, checkSig, digest), Context(pubKey, checkSig, digest);
    CountBoundsChecks(sigCtx, []);
    checks := Eval(sigCtx, []).m.sigChecks;
    var good, stack := EvalScript(sigCtx, []);
    if !good {
      return false, checks;
    }
    var stackCopy := stack;
    CountBoundsChecks(pubCtx, stack);
    checks := checks + Eval(pubCtx, stack).m.sigChecks;
    if IsPayToScriptHash(pubKey) {
      ScriptHashOps(pubKey);
    }
    good, stack := EvalScript(pubCtx, stack);
    if !good || stack == [] {
      return false, checks;
    }
    var truth := CastToBoolLoop(Top(stack, 1));
    if !truth {
      return false, checks;
    }
    if hashed && IsPayToScriptHash(pubKey) {
      var script := new CScript(sigScript);
      var pushOnly := script.IsPushOnly();
      assert sigScript[0..] == sigScript;
      PushOnlyIsPushes(sigScript, 0);
      if !pushOnly {
        return false, checks;
      }
      NonemptyStack(sigCtx, pubCtx);
      SuppliedScript(sigCtx, []);
      var inner := pubCtx.(script := Top(stackCopy, 1));
      CountBoundsChecks(inner, Drop(stackCopy, 1));
      checks := checks + Eval(inner, Drop(stackCopy, 1)).m.sigChecks;
      good, stack := EvalScript(inner, Drop(stackCopy, 1));
      if !good || stack == [] {
        return false, checks;
      }
      truth := CastToBoolLoop(Top(stack, 1));
      return truth, checks;
    }
    return true, checks;
  }

  /** The copied stack read by `stackCopy.back()` is never empty. */
  lemma NonemptyStack(sigCtx: Context, pubCtx: Context)
    requires IsPayToScriptHash(pubCtx.script)
    requires Eval(sigCtx, []).ok && Eval(pubCtx, Eval(sigCtx, []).m.stack).ok
    ensures |Eval(sigCtx, []).m.stack| > 0 && OpsFrom(sigCtx.script, 0) != []
  {
    hide GetOp, Exec, FlatStep;
    ScriptHashNeedsOperand(pubCtx);
  }
}
