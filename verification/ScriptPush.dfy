/**
 What evaluating freshly written scripts gives: a script that pushes a list of values
 leaves that list, a pushed number reads back as the number, and the multisig opcode answers
 whether the signatures can be matched.
 */
module ScriptPush {
  import opened Bytes
  import opened BigNum
  import opened ScriptBytes
  import opened Multisig
  import opened ScriptMachine
  import opened Wrappers

  function Pushed(values: seq<Bytes>): (parts: seq<Bytes>)
    ensures |parts| == |values|
    ensures forall i :: 0 <= i < |values| ==> parts[i] == Push(values[i])
  {
    seq(|values|, i requires 0 <= i < |values| => Push(values[i]))
  }

  /** `PushAll` (script.cpp:1672). */
  method PushAll(values: seq<Bytes>) returns (result: CScript)
    ensures fresh(result) && result.bytes == Flatten(Pushed(values))
  {
    result := new CScript([]);
    for i := 0 to |values|
      invariant fresh(result) && result.bytes == Flatten(Pushed(values[..i]))
    {
      assert Pushed(values[..i + 1]) == Pushed(values[..i]) + [Push(values[i])];
      FlattenAppend(Pushed(values[..i]), [Push(values[i])]);
      FlattenOne(Push(values[i]));
      result.PushData(values[i]);
    }
    assert values[..|values|] == values;
  }

  lemma FlattenOne(b: Bytes)
    ensures Flatten([b]) == b
  {
    assert [b][1..] == [];
    assert b + [] == b;
  }

  /** The instructions read from offset `pc` when `Flatten(Pushed(values))` stands there. */
  predicate AreOps(ops: seq<Op>, values: seq<Bytes>)
  {
    |ops| == |values| && forall i :: 0 <= i < |ops| ==> ops[i].opcode <= OP_PUSHDATA4 && ops[i].data == values[i]
  }

  lemma {:induction false} PushedOps(script: Bytes, pc: nat, values: seq<Bytes>)
    requires pc <= |script| && script[pc..] == Flatten(Pushed(values))
    requires forall i :: 0 <= i < |values| ==> |values[i]| < 0x1_0000_0000
    ensures AreOps(OpsFrom(script, pc), values) && Complete(script, pc)
    decreases |values|
  {
    hide GetOp, Push;
    if values == [] {
      EmptyScript();
    } else {
      var first, rest := Push(values[0]), Flatten(Pushed(values[1..]));
      assert Pushed(values)[1..] == Pushed(values[1..]);
      assert script[pc..] == first + rest;
      PushIsInstruction(values[0]);
      GetOpLocal(first, rest);
      assert script[pc + |first|..] == rest;
      PushedOps(script, pc + |first|, values[1..]);
      var ops := OpsFrom(script, pc);
      assert ops[1..] == OpsFrom(script, pc + |first|);
      forall i | 0 <= i < |ops|
        ensures ops[i].opcode <= OP_PUSHDATA4 && ops[i].data == values[i]
      {
        if i > 0 {
          assert ops[i] == ops[1..][i - 1] && values[i] == values[1..][i - 1];
        }
      }
    }
  }

  predicate AllFit(values: seq<Bytes>)
  {
    forall i :: 0 <= i < |values| ==> |values[i]| <= 520
  }

  lemma AllFitNil()
    ensures AllFit([])
  {
  }

  lemma AllFitCons(values: seq<Bytes>)
    requires values != []
    ensures AllFit(values) <==> |values[0]| <= MAX_ELEMENT && AllFit(values[1..])
  {
    assert forall i :: 1 <= i < |values| ==> values[i] == values[1..][i - 1];
  }

  lemma PushOne(ctx: Context, op: Op, m: Machine)
    requires op.opcode <= OP_PUSHDATA4
    ensures FlatStep(ctx, op, m, []) ==
            if |op.data| > MAX_ELEMENT then Fail(m)
            else
              var m1 := m.(stack := m.stack + [op.data]);
              if |m1.stack| + |m1.alt| > MAX_STACK then Fail(m1) else More(m1, [])
  {
  }

  lemma {:induction false} RunPushed(ctx: Context, ops: seq<Op>, values: seq<Bytes>, m: Machine)
    requires AreOps(ops, values) && |m.stack| + |m.alt| <= MAX_STACK
    ensures var r := FlatRun(ctx, ops, true, m, []);
            && (r.ok <==> AllFit(values) && |m.stack| + |m.alt| + |values| <= MAX_STACK)
            && (r.ok ==> r.m == m.(stack := m.stack + values))
    decreases |ops|
  {
    hide FlatStep, AllFit;
    if ops == [] {
      AllFitNil();
      assert m.stack + values == m.stack;
    } else {
      PushOne(ctx, ops[0], m);
      AllFitCons(values);
      match FlatStep(ctx, ops[0], m, [])
      case Fail(_) =>
      case More(m1, _) =>
        RunPushed(ctx, ops[1..], values[1..], m1);
        assert m.stack + [values[0]] + values[1..] == m.stack + values;
    }
  }

  lemma {:induction false} FlattenLonger(values: seq<Bytes>, i: nat)
    requires i < |values|
    ensures |Flatten(Pushed(values))| >= |values[i]|
  {
    assert Pushed(values)[1..] == Pushed(values[1..]);
    if i > 0 {
      FlattenLonger(values[1..], i - 1);
    }
  }

  /** Evaluating the script from an empty stack leaves exactly the values, and works exactly within the limits. */
  lemma PushAllEvaluates(ctx: Context, values: seq<Bytes>)
    requires ctx.script == Flatten(Pushed(values))
    ensures var r := Eval(ctx, []);
            && (r.ok <==> |ctx.script| <= 10000 && |values| <= 1000 && AllFit(values))
            && (r.ok ==> r.m.stack == values && r.m.alt == [])
  {
    hide FlatRun, OpsFrom, Complete, Push;
    if |ctx.script| <= MAX_SCRIPT {
      forall i | 0 <= i < |values|
        ensures |values[i]| < 0x1_0000_0000
      {
        FlattenLonger(values, i);
      }
      assert ctx.script[0..] == ctx.script;
      PushedOps(ctx.script, 0, values);
      RunPushed(ctx, OpsFrom(ctx.script, 0), values, Start([]));
      assert [] + values == values;
    }
  }

  /** A pushed 64-bit integer evaluates to its byte form, which spells the integer. */
  lemma PushNumberEvaluates(ctx: Context, n: int)
    requires -0x8000_0000_0000_0000 <= n < 0x8000_0000_0000_0000
    requires ctx.script == PushNumber(n)
    ensures var r := Eval(ctx, []);
            r.ok && r.m.stack == [GetVch(n)] && SetVch(r.m.stack[0]) == n
  {
    SetGetVch(n);
    hide SetVch, GetVch;
    if n == -1 || 1 <= n <= 16 {
      SmallNumberEvaluates(ctx, n);
    } else {
      NineBytes(n);
      var values := [GetVch(n)];
      FlattenOne(Push(values[0]));
      assert Pushed(values) == [Push(values[0])];
      PushAllEvaluates(ctx, values);
    }
  }

  lemma SmallNumberEvaluates(ctx: Context, n: int)
    requires n == -1 || 1 <= n <= 16
    requires ctx.script == [n + (OP_1 - 1)]
    ensures var r := Eval(ctx, []); r.ok && r.m.stack == [GetVch(n)]
  {
    hide SetVch, GetVch;
    var s := ctx.script;
    EmptyScript();
    assert s[0..] == s && s[1..] == [];
    assert GetOp(s) == Some(Instr(s[0], [], 1));
    assert OpsFrom(s, 1) == [] && Complete(s, 1);
    var op := Op(s[0], [], 1);
    assert OpsFrom(s, 0) == [op];
    assert Exec(ctx, op, Start([])) == Go(Start([GetVch(n)]));
    assert FlatStep(ctx, op, Start([]), []) == More(Start([GetVch(n)]), []);
    RunOne(ctx, op, Start([]));
  }

  lemma RunOne(ctx: Context, op: Op, m: Machine)
    ensures FlatRun(ctx, [op], true, m, []) ==
            match FlatStep(ctx, op, m, []) case Fail(m1) => Result(false, m1) case More(m1, flags) => Result(flags == [], m1)
  {
    assert [op][1..] == [];
  }

  lemma NineBytes(n: int)
    requires -0x8000_0000_0000_0000 <= n < 0x8000_0000_0000_0000
    ensures |GetVch(n)| <= 9
  {
    hide FromLE;
    Spans();
    MagnitudeFits(if n < 0 then -n else n, 8);
  }

  lemma FlagTruth()
    ensures CastToBool(Flag(true)) && !CastToBool(Flag(false))
  {
    assert Flag(true)[0] == 1;
  }

  lemma OperandsGood(m: Machine, nKeys: nat, nSigs: nat)
    requires nSigs <= nKeys <= MAX_KEYS && nKeys + nSigs + 3 <= |m.stack| && m.ops + nKeys <= MAX_OPS
    requires Number(Top(m.stack, 1)) == Some(nKeys) && Number(Top(m.stack, nKeys + 2)) == Some(nSigs)
    ensures MultiOperands(m) == Multi(nKeys, nSigs, m.(ops := m.ops + nKeys))
  {
    hide Number;
  }

  /** The operands of OP_CHECKMULTISIG are all there: two counts of at most four bytes in range, as many elements as they announce and one more, and room under the operation limit. */
  predicate InOrder(m: Machine, nKeys: nat, nSigs: nat)
  {
    && nSigs <= nKeys <= 20 && nKeys + nSigs + 3 <= |m.stack| && m.ops + nKeys <= 201
    && |Top(m.stack, 1)| <= 4 && SetVch(Top(m.stack, 1)) == nKeys
    && |Top(m.stack, nKeys + 2)| <= 4 && SetVch(Top(m.stack, nKeys + 2)) == nSigs
  }

  /**
   OP_CHECKMULTISIG with its operands in order: the keys, the signatures, both counts and one
   element more leave the stack, and the answer is whether the signatures can be assigned to
   keys in order.
   */
  lemma MultisigAnswers(ctx: Context, m: Machine, nKeys: nat, nSigs: nat)
    requires InOrder(m, nKeys, nSigs)
    ensures var keys, sigs := Below(m.stack, 2, nKeys), Below(m.stack, nKeys + 3, nSigs);
            var code := CodeWithout(CodeFrom(ctx.script, m.codeStart), sigs);
            var good := Matchable(sigs, keys, CheckUnder(ctx, code));
            var base := m.stack[..|m.stack| - (nKeys + nSigs + 3)];
            && CheckMultisigOp(ctx, false, m).Go? && CheckMultisigOp(ctx, false, m).m.stack == base + [Flag(good)]
            && CheckMultisigOp(ctx, true, m).Go? == good
            && (good ==> CheckMultisigOp(ctx, true, m).m.stack == base)
  {
    hide SetVch, Match, Matchable, CheckUnder, CodeWithout, CodeFrom, Flag, Verify;
    var keys, sigs := Below(m.stack, 2, nKeys), Below(m.stack, nKeys + 3, nSigs);
    var code := CodeWithout(CodeFrom(ctx.script, m.codeStart), sigs);
    MatchIffMatchable(sigs, keys, CheckUnder(ctx, code));
    MultisigPushes(ctx, m, nKeys, nSigs);
    MultisigVerifies(ctx, m, nKeys, nSigs);
    var base := m.stack[..|m.stack| - (nKeys + nSigs + 3)];
    VerifyFlag(CheckMultisigOp(ctx, false, m).m, base, Match(sigs, keys, CheckUnder(ctx, code)).0);
    hide CheckMultisigOp;
  }

  lemma MultisigPushes(ctx: Context, m: Machine, nKeys: nat, nSigs: nat)
    requires nSigs <= nKeys <= MAX_KEYS && nKeys + nSigs + 3 <= |m.stack| && m.ops + nKeys <= MAX_OPS
    requires Number(Top(m.stack, 1)) == Some(nKeys) && Number(Top(m.stack, nKeys + 2)) == Some(nSigs)
    ensures var keys, sigs := Below(m.stack, 2, nKeys), Below(m.stack, nKeys + 3, nSigs);
            var code := CodeWithout(CodeFrom(ctx.script, m.codeStart), sigs);
            var r := CheckMultisigOp(ctx, false, m);
            && r.Go? && r.m.stack == m.stack[..|m.stack| - (nKeys + nSigs + 3)] + [Flag(Match(sigs, keys, CheckUnder(ctx, code)).0)]
  {
    hide Number, MultiOperands, CodeWithout, CodeFrom, Match, CheckUnder, Flag, Verify, Below, Answered;
    OperandsGood(m, nKeys, nSigs);
    AnsweredStack(ctx, m.(ops := m.ops + nKeys), nKeys, nSigs);
  }

  lemma AnsweredStack(ctx: Context, m: Machine, nKeys: nat, nSigs: nat)
    requires nKeys + nSigs + 3 <= |m.stack|
    ensures var keys, sigs := Below(m.stack, 2, nKeys), Below(m.stack, nKeys + 3, nSigs);
            var code := CodeWithout(CodeFrom(ctx.script, m.codeStart), sigs);
            Answered(ctx, m, nKeys, nSigs).stack
            == m.stack[..|m.stack| - (nKeys + nSigs + 3)] + [Flag(Match(sigs, keys, CheckUnder(ctx, code)).0)]
  {
    hide CodeWithout, CodeFrom, Match, CheckUnder, Flag, Below, Top;
  }

  /** The VERIFY form is the plain one followed by OP_VERIFY. */
  lemma MultisigVerifies(ctx: Context, m: Machine, nKeys: nat, nSigs: nat)
    requires nSigs <= nKeys <= MAX_KEYS && nKeys + nSigs + 3 <= |m.stack| && m.ops + nKeys <= MAX_OPS
    requires Number(Top(m.stack, 1)) == Some(nKeys) && Number(Top(m.stack, nKeys + 2)) == Some(nSigs)
    ensures var r := CheckMultisigOp(ctx, false, m); r.Go? && CheckMultisigOp(ctx, true, m) == Verify(r.m)
  {
    hide Number, MultiOperands, Verify, Answered;
    OperandsGood(m, nKeys, nSigs);
  }

  lemma VerifyFlag(m: Machine, base: seq<Bytes>, b: bool)
    requires m.stack == base + [Flag(b)]
    ensures Verify(m).Go? <==> b
    ensures b ==> Verify(m).m.stack == base
  {
    FlagTruth();
    assert Top(m.stack, 1) == Flag(b) && Drop(m.stack, 1) == base;
    hide CastToBool, Flag;
  }

  /** In every other case, and only then, it fails with the stack as it was, and without a signature check. */
  lemma MultisigRefuses(ctx: Context, verify: bool, m: Machine)
    ensures var r := CheckMultisigOp(ctx, verify, m);
            && (r.Halt? && r.m.stack == m.stack <==> !exists nKeys, nSigs :: InOrder(m, nKeys, nSigs))
            && (r.Halt? && r.m.stack == m.stack ==> r.m.sigChecks == m.sigChecks && r.m.alt == m.alt)
  {
    hide CodeWithout, CodeFrom, Match, CheckUnder, CastToBool, SetVch;
    match MultiOperands(m)
    case Multi(nKeys, nSigs, _) =>
      assert InOrder(m, nKeys, nSigs);
    case Bad(_) =>
      forall nKeys: nat, nSigs: nat
        ensures !InOrder(m, nKeys, nSigs)
      {
      }
  }
}
