/**
 What the remaining operators do, each on a stack written out, and what the scripts in daily use
 come to: paying to the hash of a key, and paying to the hash of a script.
 */
module ScriptSpends {
  import opened Bytes
  import opened BigNum
  import opened ScriptBytes
  import opened ScriptMachine
  import opened ScriptPush
  import opened ScriptSigops
  import opened Wrappers

  // ----- signatures -----

  /** The script behind offset `start` without the instructions that push `sig`. */
  function CodeSigned(script: Bytes, start: nat, sig: Bytes): Bytes
    requires start <= |script|
  {
    Flatten(Without(Instructions(script[start..]), Push(sig))) + Tail(script[start..])
  }

  /**
   CHECKSIG asks about the signature below the key, for the code behind the last separator without
   the pushes of that signature, and leaves the answer in their place.
   */
  lemma CheckSigAsks(ctx: Context, op: Op, m: Machine, base: seq<Bytes>, sig: Bytes, key: Bytes)
    requires m.stack == base + [sig, key] && m.codeStart <= |ctx.script| && |sig| < 0x1_0000_0000
    ensures var good := ctx.checkSig(sig, key, CodeSigned(ctx.script, m.codeStart, sig));
            && (op.opcode == 0xac ==>
                  Exec(ctx, op, m) == Go(m.(stack := base + [if good then [1] else []], sigChecks := m.sigChecks + 1)))
            && (op.opcode == 0xad ==>
                  (Exec(ctx, op, m).Go? <==> good) && Exec(ctx, op, m).m.sigChecks == m.sigChecks + 1
                  && (good ==> Exec(ctx, op, m) == Go(m.(stack := base, sigChecks := m.sigChecks + 1))))
  {
    hide GetOp, DeleteAll, Push, Instructions, Tail, Without, Flatten, CastToBool;
    var rest := ctx.script[m.codeStart..];
    PushIsInstruction(sig);
    DeleteIsFilter(rest, Push(sig));
    assert CodeWithout(CodeFrom(ctx.script, m.codeStart), [sig]) == CodeSigned(ctx.script, m.codeStart, sig) by {
      assert CodeWithout(DeleteAll(rest, Push(sig)).0, [sig][1..]) == DeleteAll(rest, Push(sig)).0;
    }
    var s := m.stack;
    assert Drop(s, 2) == base && Top(s, 2) == sig && Top(s, 1) == key;
    var good := ctx.checkSig(sig, key, CodeSigned(ctx.script, m.codeStart, sig));
    VerifyFlag(m.(stack := base + [Flag(good)], sigChecks := m.sigChecks + 1), base, good);
    hide CodeWithout, CodeFrom, CodeSigned;
  }

  /** With fewer than two elements there is nothing to check. */
  lemma CheckSigNeedsTwo(ctx: Context, op: Op, m: Machine)
    requires op.opcode in {0xac, 0xad} && |m.stack| < 2
    ensures Exec(ctx, op, m) == Halt(m)
  {
  }

  // ----- operators on one element -----

  /** Each of the five hash operators replaces the top element by its digest. */
  lemma HashReplaces(ctx: Context, op: Op, m: Machine, base: seq<Bytes>, x: Bytes)
    requires op.opcode in {0xa6, 0xa7, 0xa8, 0xa9, 0xaa}
    ensures m.stack == base + [x] ==> Exec(ctx, op, m) == Go(m.(stack := base + [ctx.digest(op.opcode, x)]))
    ensures m.stack == [] ==> Exec(ctx, op, m) == Halt(m)
  {
    if m.stack == base + [x] {
      assert Drop(m.stack, 1) == base && Top(m.stack, 1) == x;
    }
  }

  /** VERIFY consumes a number other than zero and stops at zero with everything in place; IFDUP copies the one and not the other. */
  lemma TruthDecides(ctx: Context, op: Op, m: Machine, base: seq<Bytes>, x: Bytes)
    requires m.stack == base + [x]
    ensures op.opcode == 0x69 ==> Exec(ctx, op, m) == if SetVch(x) != 0 then Go(m.(stack := base)) else Halt(m)
    ensures op.opcode == 0x73 ==> Exec(ctx, op, m) == if SetVch(x) != 0 then Go(m.(stack := base + [x, x])) else Go(m)
  {
    TrueIffNonzero(x);
    assert Drop(m.stack, 1) == base && Top(m.stack, 1) == x && m.stack[|m.stack| - 1] == x;
    assert base + [x] + [x] == base + [x, x];
    hide SetVch, CastToBool;
  }

  /** TOALTSTACK and FROMALTSTACK move one element over and back. */
  lemma AltMoves(ctx: Context, op: Op, m: Machine, base: seq<Bytes>, alt: seq<Bytes>, x: Bytes)
    ensures op.opcode == 0x6b && m.stack == base + [x] ==> Exec(ctx, op, m) == Go(m.(stack := base, alt := m.alt + [x]))
    ensures op.opcode == 0x6c && m.alt == alt + [x] ==> Exec(ctx, op, m) == Go(m.(stack := m.stack + [x], alt := alt))
    ensures (op.opcode == 0x6b && m.stack == []) || (op.opcode == 0x6c && m.alt == []) ==> Exec(ctx, op, m) == Halt(m)
  {
    if op.opcode == 0x6b && m.stack == base + [x] {
      assert Drop(m.stack, 1) == base && Top(m.stack, 1) == x;
    }
    if op.opcode == 0x6c && m.alt == alt + [x] {
      assert Drop(m.alt, 1) == alt && Top(m.alt, 1) == x;
    }
  }

  /** Operators that need an element fail without one, and leave everything as it is. */
  lemma NeedsOne(ctx: Context, op: Op, m: Machine)
    requires m.stack == [] && op.opcode in {0x69, 0x73, 0x75, 0x76, 0x82, 0x8b, 0x8c, 0x8f, 0x90, 0x91, 0x92}
    ensures Exec(ctx, op, m) == Halt(m)
  {
  }

  // ----- operators on none -----

  /** The small numbers, the separator, the operators that do nothing, and the sizes of the stack and of its top. */
  lemma PlainOperators(ctx: Context, op: Op, m: Machine)
    ensures op.opcode == 0x4f ==> Exec(ctx, op, m) == Go(m.(stack := m.stack + [[0x81]]))
    ensures 0x51 <= op.opcode <= 0x60 ==> Exec(ctx, op, m) == Go(m.(stack := m.stack + [[op.opcode - 0x50]]))
    ensures op.opcode <= 0x4e ==> Exec(ctx, op, m) == Go(m.(stack := m.stack + [op.data]))
    ensures op.opcode == 0xab ==> Exec(ctx, op, m) == Go(m.(codeStart := op.next))
    ensures op.opcode == 0x61 || 0xb0 <= op.opcode <= 0xb9 ==> Exec(ctx, op, m) == Go(m)
    ensures op.opcode == 0x74 ==> Exec(ctx, op, m) == Go(m.(stack := m.stack + [GetVch(|m.stack|)]))
    ensures op.opcode == 0x82 && m.stack != [] ==>
              Exec(ctx, op, m) == Go(m.(stack := m.stack + [GetVch(|m.stack[|m.stack| - 1]|)]))
  {
    if op.opcode == 0x4f {
      MinusOne();
    } else if 0x51 <= op.opcode <= 0x60 {
      OneByte(op.opcode - 0x50);
    }
    hide GetVch;
  }

  lemma MinusOne()
    ensures GetVch(-1) == [0x81]
  {
    assert Magnitude(1) == [1];
  }

  lemma OneByte(n: nat)
    requires 1 <= n <= 16
    ensures GetVch(n) == [n]
  {
    assert Magnitude(n) == [n];
  }

  /** Executing RETURN, a reserved or an undefined opcode stops the script. */
  lemma StopsTheScript(ctx: Context, op: Op, m: Machine)
    requires op.opcode in {0x50, 0x62, 0x6a, 0x89, 0x8a} || op.opcode >= 0xba
    ensures Exec(ctx, op, m) == Halt(m)
  {
  }

  // ----- one turn of the main loop -----

  /** CAT, SUBSTR, LEFT, RIGHT, INVERT, AND, OR, XOR, 2MUL, 2DIV, MUL, DIV, MOD, LSHIFT and RSHIFT. */
  function Refused(): set<int>
  {
    {0x7e, 0x7f, 0x80, 0x81, 0x83, 0x84, 0x85, 0x86, 0x8d, 0x8e, 0x95, 0x96, 0x97, 0x98, 0x99}
  }

  /**
   An instruction in a branch not taken stops the script exactly if it pushes more than 520 bytes, is
   one operation too many after 201, is refused everywhere, or comes upon more than 1000 elements.
   */
  lemma SkippedTurn(ctx: Context, op: Op, m: Machine, flags: seq<bool>, i: nat)
    requires i < |flags| && !flags[i] && !(0x63 <= op.opcode <= 0x68)
    ensures FlatStep(ctx, op, m, flags).More? <==>
            && |op.data| <= 520 && |m.stack| + |m.alt| <= 1000
            && (op.opcode > 0x60 ==> m.ops < 201 && op.opcode !in Refused())
    ensures FlatStep(ctx, op, m, flags).More? ==>
            FlatStep(ctx, op, m, flags) == More(if op.opcode > 0x60 then m.(ops := m.ops + 1) else m, flags)
  {
    hide Exec;
  }

  /** An instruction that is executed is subject to the same checks, the last of them on what it leaves. */
  lemma ExecutedTurn(ctx: Context, op: Op, m: Machine, flags: seq<bool>)
    requires (forall i :: 0 <= i < |flags| ==> flags[i]) && !(0x63 <= op.opcode <= 0x68)
    ensures var m1 := if op.opcode > 0x60 then m.(ops := m.ops + 1) else m;
            var o := Exec(ctx, op, m1);
            && (FlatStep(ctx, op, m, flags).More? <==>
                  && |op.data| <= 520 && (op.opcode > 0x60 ==> m.ops < 201 && op.opcode !in Refused())
                  && o.Go? && |o.m.stack| + |o.m.alt| <= 1000)
            && (FlatStep(ctx, op, m, flags).More? ==> FlatStep(ctx, op, m, flags) == More(o.m, flags))
  {
    hide Exec;
  }

  /** VERIF and VERNOTIF stop the script wherever they stand, ELSE and ENDIF without an IF, and IF and NOTIF without a condition. */
  lemma ControlStops(ctx: Context, op: Op, m: Machine, flags: seq<bool>)
    ensures op.opcode in {0x65, 0x66} ==> FlatStep(ctx, op, m, flags).Fail?
    ensures op.opcode in {0x67, 0x68} && flags == [] ==> FlatStep(ctx, op, m, flags).Fail?
    ensures op.opcode in {0x63, 0x64} && m.stack == [] && (forall i :: 0 <= i < |flags| ==> flags[i]) ==>
              FlatStep(ctx, op, m, flags).Fail?
  {
    hide Exec;
  }

  // ----- paying to the hash of a key -----

  /** DUP HASH160 `h` EQUALVERIFY CHECKSIG. */
  function PayToKeyHash(h: Bytes): (s: Bytes)
    requires |h| == 20
    ensures |s| == 25
  {
    [0x76, 0xa9, 0x14] + h + [0x88, 0xac]
  }

  lemma ReadOne(s: Bytes, pc: nat)
    requires pc < |s| && s[pc] > 0x4e
    ensures OpsFrom(s, pc) == [Op(s[pc], [], pc + 1)] + OpsFrom(s, pc + 1) && Complete(s, pc) == Complete(s, pc + 1)
    ensures Instructions(s[pc..]) == [[s[pc]]] + Instructions(s[pc + 1..]) && Tail(s[pc..]) == Tail(s[pc + 1..])
  {
    assert GetOp(s[pc..]) == Some(Instr(s[pc], [], 1));
    assert s[pc..][1..] == s[pc + 1..] && s[pc..][..1] == [s[pc]];
    hide GetOp;
  }

  lemma ReadHash(s: Bytes, pc: nat, h: Bytes)
    requires pc + 21 <= |s| && s[pc] == 0x14 && s[pc + 1..pc + 21] == h
    ensures OpsFrom(s, pc) == [Op(0x14, h, pc + 21)] + OpsFrom(s, pc + 21) && Complete(s, pc) == Complete(s, pc + 21)
    ensures Instructions(s[pc..]) == [[0x14] + h] + Instructions(s[pc + 21..]) && Tail(s[pc..]) == Tail(s[pc + 21..])
  {
    assert s[pc..][1..21] == h;
    assert GetOp(s[pc..]) == Some(Instr(0x14, h, 21));
    assert s[pc..][21..] == s[pc + 21..] && s[pc..][..21] == [0x14] + h;
    hide GetOp;
  }

  lemma ReadEnd(s: Bytes)
    ensures OpsFrom(s, |s|) == [] && Complete(s, |s|) && Instructions(s[|s|..]) == [] && Tail(s[|s|..]) == []
  {
    EmptyScript();
    assert s[|s|..] == [];
  }

  lemma KeyHashOps(h: Bytes)
    requires |h| == 20
    ensures var s := PayToKeyHash(h);
            && OpsFrom(s, 0) == [Op(0x76, [], 1)] + ([Op(0xa9, [], 2)] + ([Op(0x14, h, 23)] + ([Op(0x88, [], 24)] + ([Op(0xac, [], 25)] + []))))
            && Complete(s, 0)
            && Instructions(s) == [[0x76], [0xa9], [0x14] + h, [0x88], [0xac]] && Tail(s) == []
  {
    hide OpsFrom, Complete, Instructions, Tail;
    var s := PayToKeyHash(h);
    assert s[0..] == s && s[3..23] == h;
    ReadOne(s, 0);
    ReadOne(s, 1);
    ReadHash(s, 2, h);
    ReadOne(s, 23);
    ReadOne(s, 24);
    ReadEnd(s);
  }

  /** The code under a signature: the whole script, unless the signature is the very hash in it. */
  function KeyHashCode(h: Bytes, sig: Bytes): Bytes
    requires |h| == 20
  {
    if sig == h then [0x76, 0xa9, 0x88, 0xac] else PayToKeyHash(h)
  }

  lemma KeyHashSigned(h: Bytes, sig: Bytes)
    requires |h| == 20 && |sig| < 0x1_0000_0000
    ensures CodeSigned(PayToKeyHash(h), 0, sig) == KeyHashCode(h, sig)
  {
    var s, p := PayToKeyHash(h), Push(sig);
    KeyHashOps(h);
    assert s[0..] == s;
    SignaturePush(h, sig);
    KeyHashWithout(h, p);
    KeyHashFlat(h);
    hide Instructions, Tail, Without, Flatten, Push;
    assert Flatten([[0x76], [0xa9], [0x14] + h, [0x88], [0xac]]) + [] == s;
  }

  lemma SignaturePush(h: Bytes, sig: Bytes)
    requires |h| == 20 && |sig| < 0x1_0000_0000
    ensures Push(sig) == [0x14] + h <==> sig == h
    ensures Push(sig) != [0x76] && Push(sig) != [0xa9] && Push(sig) != [0x88] && Push(sig) != [0xac]
  {
    hide GetOp;
    PushIsInstruction(sig);
    PushIsInstruction(h);
    assert Push(h) == [0x14] + h;
    assert Push(sig)[0] <= 0x4e;
  }

  lemma KeyHashWithout(h: Bytes, p: Bytes)
    requires |h| == 20 && p != [0x76] && p != [0xa9] && p != [0x88] && p != [0xac]
    ensures Without([[0x76], [0xa9], [0x14] + h, [0x88], [0xac]], p)
         == if p == [0x14] + h then [[0x76], [0xa9], [0x88], [0xac]] else [[0x76], [0xa9], [0x14] + h, [0x88], [0xac]]
  {
    var e: seq<Bytes> := [[0xac]];
    var d: seq<Bytes> := [[0x88], [0xac]];
    var c: seq<Bytes> := [[0x14] + h, [0x88], [0xac]];
    var b: seq<Bytes> := [[0xa9], [0x14] + h, [0x88], [0xac]];
    var a: seq<Bytes> := [[0x76], [0xa9], [0x14] + h, [0x88], [0xac]];
    assert a[1..] == b && b[1..] == c && c[1..] == d && d[1..] == e && e[1..] == [];
    assert Without(e, p) == e && Without(d, p) == d;
    assert Without(c, p) == if p == [0x14] + h then d else c;
    assert Without(b, p) == [[0xa9]] + Without(c, p);
    assert Without(a, p) == [[0x76]] + Without(b, p);
  }

  lemma KeyHashFlat(h: Bytes)
    requires |h| == 20
    ensures Flatten([[0x76], [0xa9], [0x14] + h, [0x88], [0xac]]) == PayToKeyHash(h)
    ensures Flatten([[0x76], [0xa9], [0x88], [0xac]]) == [0x76, 0xa9, 0x88, 0xac]
  {
    FlattenFour([0x76], [0xa9], [0x88], [0xac]);
    var rest: seq<Bytes> := [[0xa9], [0x14] + h, [0x88], [0xac]];
    FlattenFour([0xa9], [0x14] + h, [0x88], [0xac]);
    assert [[0x76], [0xa9], [0x14] + h, [0x88], [0xac]] == [[0x76]] + rest;
    FlattenCons([0x76], rest);
    hide Flatten;
  }

  lemma FlattenFour(a: Bytes, b: Bytes, c: Bytes, d: Bytes)
    ensures Flatten([a, b, c, d]) == a + (b + (c + d))
  {
    assert [a, b, c, d] == [a] + ([b] + ([c] + [d]));
    FlattenCons(a, [b] + ([c] + [d]));
    FlattenCons(b, [c] + [d]);
    FlattenCons(c, [d]);
    FlattenOne(d);
    hide Flatten;
  }

  /** One executed instruction more, outside all conditionals. */
  lemma RunCons(ctx: Context, op: Op, ops: seq<Op>, complete: bool, m: Machine)
    ensures FlatStep(ctx, op, m, []).Fail? ==>
              FlatRun(ctx, [op] + ops, complete, m, []) == Result(false, FlatStep(ctx, op, m, []).m)
    ensures FlatStep(ctx, op, m, []).More? ==>
              FlatRun(ctx, [op] + ops, complete, m, [])
              == FlatRun(ctx, ops, complete, FlatStep(ctx, op, m, []).m, FlatStep(ctx, op, m, []).flags)
  {
    hide FlatStep;
    assert ([op] + ops)[0] == op && ([op] + ops)[1..] == ops;
  }

  lemma RunEnds(ctx: Context, m: Machine)
    ensures FlatRun(ctx, [], true, m, []) == Result(true, m)
  {
  }

  /** One turn that goes on, for an instruction known to leave `s`. */
  lemma Turn(ctx: Context, op: Op, m: Machine, after: Machine)
    requires !(0x63 <= op.opcode <= 0x68) && |op.data| <= 520 && m.ops < 200 && op.opcode !in Refused()
    requires Exec(ctx, op, if op.opcode > 0x60 then m.(ops := m.ops + 1) else m) == Go(after)
    requires |after.stack| + |after.alt| <= 1000
    ensures FlatStep(ctx, op, m, []) == More(after, [])
  {
    ExecutedTurn(ctx, op, m, []);
    hide Exec, FlatStep;
  }

  lemma DupAt(ctx: Context, op: Op, m: Machine, base: seq<Bytes>, x: Bytes)
    requires op.opcode == 0x76 && m.stack == base + [x]
    ensures Exec(ctx, op, m) == Go(m.(stack := base + [x, x]))
  {
    assert base + [x] + [x] == base + [x, x];
  }

  /** EQUAL and EQUALVERIFY with their two operands on top. */
  lemma EqualAt(ctx: Context, op: Op, m: Machine, base: seq<Bytes>, x: Bytes, y: Bytes)
    requires m.stack == base + [x, y]
    ensures op.opcode == 0x87 ==> Exec(ctx, op, m) == Go(m.(stack := base + [if x == y then [1] else []]))
    ensures op.opcode == 0x88 && x == y ==> Exec(ctx, op, m) == Go(m.(stack := base))
    ensures op.opcode == 0x88 && x != y ==> Exec(ctx, op, m).Halt?
  {
    var s := m.stack;
    assert Drop(s, 2) == base && Top(s, 2) == x && Top(s, 1) == y;
    VerifyFlag(m.(stack := base + [Flag(x == y)]), base, x == y);
    hide CastToBool;
  }

  lemma HaltFails(ctx: Context, op: Op, m: Machine)
    requires 0x68 < op.opcode && m.ops < 200 && Exec(ctx, op, m.(ops := m.ops + 1)).Halt?
    ensures FlatStep(ctx, op, m, []).Fail?
  {
    hide Exec;
  }

  /** The machine with this stack after so many operations and signature checks. */
  function At(stack: seq<Bytes>, ops: nat, checks: nat): Machine
  {
    Machine(stack, [], ops, 0, checks)
  }

  /** The first three instructions put the digest of the key and the hash on top. */
  lemma KeyHashHead(ctx: Context, base: seq<Bytes>, sig: Bytes, key: Bytes, h: Bytes, rest: seq<Op>)
    requires |h| == 20 && |base| + 4 <= 1000
    ensures FlatRun(ctx, [Op(0x76, [], 1)] + ([Op(0xa9, [], 2)] + ([Op(0x14, h, 23)] + rest)), true, Start(base + [sig, key]), [])
         == FlatRun(ctx, rest, true, At(base + [sig, key, ctx.digest(0xa9, key), h], 2, 0), [])
  {
    hide Exec, FlatStep, FlatRun;
    var d := ctx.digest(0xa9, key);
    var m0, m1, m2 := At(base + [sig, key], 0, 0), At(base + [sig, key, key], 1, 0), At(base + [sig, key, d], 2, 0);
    var m3 := At(base + [sig, key, d, h], 2, 0);
    var op1, op2, op3 := Op(0x76, [], 1), Op(0xa9, [], 2), Op(0x14, h, 23);
    assert base + [sig] + [key] == m0.stack && base + [sig] + [key, key] == m1.stack;
    DupAt(ctx, op1, m0.(ops := 1), base + [sig], key);
    Turn(ctx, op1, m0, m1);
    RunCons(ctx, op1, [op2] + ([op3] + rest), true, m0);
    assert base + [sig, key] + [key] == m1.stack && base + [sig, key] + [d] == m2.stack;
    HashReplaces(ctx, op2, m1.(ops := 2), base + [sig, key], key);
    Turn(ctx, op2, m1, m2);
    RunCons(ctx, op2, [op3] + rest, true, m1);
    assert m2.stack + [h] == m3.stack;
    PlainOperators(ctx, op3, m2);
    Turn(ctx, op3, m2, m3);
    RunCons(ctx, op3, rest, true, m2);
  }

  /**
   Paying to the hash of a key, on a signature and a key above anything else: the script runs to its
   end exactly if the key has that hash, and leaves in their place whether the signature is good.
   */
  lemma PayToKeyHashRuns(ctx: Context, base: seq<Bytes>, sig: Bytes, key: Bytes, h: Bytes)
    requires |h| == 20 && ctx.script == PayToKeyHash(h) && |base| + 4 <= 1000 && |sig| < 0x1_0000_0000
    ensures var r := Eval(ctx, base + [sig, key]);
            && (r.ok <==> ctx.digest(0xa9, key) == h)
            && (r.ok ==> r.m.stack == base + [if ctx.checkSig(sig, key, KeyHashCode(h, sig)) then [1] else []])
  {
    hide Exec, FlatStep, FlatRun, OpsFrom, Complete, PayToKeyHash, KeyHashCode, CodeSigned;
    KeyHashOps(h);
    KeyHashSigned(h, sig);
    var d, good := ctx.digest(0xa9, key), ctx.checkSig(sig, key, KeyHashCode(h, sig));
    var op4, op5 := Op(0x88, [], 24), Op(0xac, [], 25);
    KeyHashHead(ctx, base, sig, key, h, [op4] + ([op5] + []));
    var m3, m4 := At(base + [sig, key, d, h], 2, 0), At(base + [sig, key], 3, 0);
    var m5 := At(base + [if good then [1] else []], 4, 1);
    assert base + [sig, key] + [d, h] == m3.stack;
    EqualAt(ctx, op4, m3.(ops := 3), base + [sig, key], d, h);
    RunCons(ctx, op4, [op5] + [], true, m3);
    if d == h {
      Turn(ctx, op4, m3, m4);
      CheckSigAsks(ctx, op5, m4.(ops := 4), base, sig, key);
      Turn(ctx, op5, m4, m5);
      RunCons(ctx, op5, [], true, m4);
      RunEnds(ctx, m5);
    } else {
      HaltFails(ctx, op4, m3);
    }
  }

  /**
   The whole spend: pushing a signature and a key is accepted exactly if both fit an element, the key
   has the hash and the signature is good for the code.
   */
  lemma KeyHashSpends(sigCtx: Context, pubCtx: Context, hashed: bool, sig: Bytes, key: Bytes, h: Bytes)
    requires |h| == 20 && sigCtx.script == Push(sig) + Push(key) && pubCtx.script == PayToKeyHash(h)
    ensures Accepts(sigCtx, pubCtx, hashed) <==>
            && |sig| <= 520 && |key| <= 520
            && pubCtx.digest(0xa9, key) == h && pubCtx.checkSig(sig, key, KeyHashCode(h, sig))
  {
    hide Eval, Push, KeyHashCode, CastToBool, Complete, OpsFrom, Pushes;
    TwoPushes(sig, key);
    TwoPushesFit(sigCtx, sig, key);
    if Eval(sigCtx, []).ok {
      PayToKeyHashRuns(pubCtx, [], sig, key, h);
      assert [] + [sig, key] == [sig, key];
      FlagTruth();
    }
  }

  lemma TwoPushes(sig: Bytes, key: Bytes)
    ensures Flatten(Pushed([sig, key])) == Push(sig) + Push(key)
  {
    assert Pushed([sig, key]) == [Push(sig)] + [Push(key)];
    FlattenCons(Push(sig), [Push(key)]);
    FlattenOne(Push(key));
  }

  lemma TwoPushesFit(ctx: Context, sig: Bytes, key: Bytes)
    requires ctx.script == Flatten(Pushed([sig, key]))
    ensures Eval(ctx, []).ok <==> |sig| <= 520 && |key| <= 520
    ensures Eval(ctx, []).ok ==> Eval(ctx, []).m.stack == [sig, key]
  {
    hide Eval, Flatten;
    PushAllEvaluates(ctx, [sig, key]);
    assert AllFit([sig, key]) <==> |sig| <= 520 && |key| <= 520 by {
      assert AllFit([sig, key]) ==> |[sig, key][0]| <= 520 && |[sig, key][1]| <= 520;
    }
    TwoPushes(sig, key);
  }

  // ----- paying to the hash of a script -----

  /** HASH160 `h` EQUAL. */
  function PayToScriptHash(h: Bytes): (s: Bytes)
    requires |h| == 20
    ensures |s| == 23
  {
    [0xa9, 0x14] + h + [0x87]
  }

  lemma ScriptHashShape(s: Bytes)
    ensures IsPayToScriptHash(s) <==> |s| == 23 && s == PayToScriptHash(s[2..22])
  {
    if |s| == 23 {
      var t := PayToScriptHash(s[2..22]);
      assert forall i :: 2 <= i < 22 ==> t[i] == s[i];
    }
  }

  lemma ScriptHashReads(h: Bytes)
    requires |h| == 20
    ensures var s := PayToScriptHash(h);
            && IsPayToScriptHash(s) && Complete(s, 0)
            && OpsFrom(s, 0) == [Op(0xa9, [], 1)] + ([Op(0x14, h, 22)] + ([Op(0x87, [], 23)] + []))
  {
    hide OpsFrom, Complete, Instructions, Tail;
    var s := PayToScriptHash(h);
    assert s[2..22] == h;
    ReadOne(s, 0);
    ReadHash(s, 1, h);
    ReadOne(s, 22);
    ReadEnd(s);
  }

  lemma TooMany(ctx: Context, op: Op, m: Machine)
    requires op.opcode <= 0x4e && |op.data| <= 520 && |m.stack| + 1 + |m.alt| > 1000
    ensures FlatStep(ctx, op, m, []).Fail?
  {
    ExecutedTurn(ctx, op, m, []);
    PlainOperators(ctx, op, m);
    hide Exec, FlatStep;
  }

  /** The template by itself answers whether the top element has the hash, if there is room for one more. */
  lemma ScriptHashRuns(ctx: Context, base: seq<Bytes>, x: Bytes, h: Bytes)
    requires |h| == 20 && ctx.script == PayToScriptHash(h) && |base| < 1000
    ensures var r := Eval(ctx, base + [x]);
            && (r.ok <==> |base| + 2 <= 1000)
            && (r.ok ==> r.m.stack == base + [if ctx.digest(0xa9, x) == h then [1] else []])
  {
    hide Exec, FlatStep, FlatRun, OpsFrom, Complete, PayToScriptHash, IsPayToScriptHash;
    ScriptHashReads(h);
    var d := ctx.digest(0xa9, x);
    var op1, op2, op3 := Op(0xa9, [], 1), Op(0x14, h, 22), Op(0x87, [], 23);
    var m0, m1, m2 := At(base + [x], 0, 0), At(base + [d], 1, 0), At(base + [d, h], 1, 0);
    var m3 := At(base + [if d == h then [1] else []], 2, 0);
    HashReplaces(ctx, op1, m0.(ops := 1), base, x);
    Turn(ctx, op1, m0, m1);
    RunCons(ctx, op1, [op2] + ([op3] + []), true, m0);
    assert base + [d] + [h] == m2.stack;
    PlainOperators(ctx, op2, m1);
    RunCons(ctx, op2, [op3] + [], true, m1);
    if |base| + 2 <= 1000 {
      Turn(ctx, op2, m1, m2);
      EqualAt(ctx, op3, m2.(ops := 2), base, d, h);
      Turn(ctx, op3, m2, m3);
      RunCons(ctx, op3, [], true, m2);
      RunEnds(ctx, m3);
    } else {
      TooMany(ctx, op2, m1);
    }
  }

  /** A run ends well: to its end, with a number other than zero on top. */
  predicate EndsTrue(r: Result)
  {
    r.ok && |r.m.stack| > 0 && SetVch(r.m.stack[|r.m.stack| - 1]) != 0
  }

  /** Spending anything but a script hash: the owner's script has to end well on what the spender's leaves. */
  lemma OrdinarySpends(sigCtx: Context, pubCtx: Context, hashed: bool)
    requires !hashed || |pubCtx.script| != 23 || pubCtx.script[..2] != [0xa9, 0x14] || pubCtx.script[22] != 0x87
    ensures Accepts(sigCtx, pubCtx, hashed) <==>
            Eval(sigCtx, []).ok && EndsTrue(Eval(pubCtx, Eval(sigCtx, []).m.stack))
  {
    hide Eval, SetVch, CastToBool, Complete, OpsFrom, Pushes;
    var after := Eval(pubCtx, Eval(sigCtx, []).m.stack).m.stack;
    if |after| > 0 {
      TrueIffNonzero(Top(after, 1));
    }
  }

  /**
   Spending a script hash by pushing values and a script: accepted exactly if everything fits, the
   script has the hash, and, where script hashes are looked into, the script ends well on the values.
   */
  lemma ScriptHashSpends(sigCtx: Context, pubCtx: Context, hashed: bool, values: seq<Bytes>, inner: Bytes, h: Bytes)
    requires |h| == 20 && pubCtx.script == PayToScriptHash(h)
    requires sigCtx.script == Flatten(Pushed(values + [inner]))
    ensures Accepts(sigCtx, pubCtx, hashed) <==>
            && |sigCtx.script| <= 10000 && |values| + 2 <= 1000
            && |inner| <= 520 && (forall i :: 0 <= i < |values| ==> |values[i]| <= 520)
            && pubCtx.digest(0xa9, inner) == h
            && (hashed ==> EndsTrue(Eval(pubCtx.(script := inner), values)))
  {
    hide Eval, SetVch, CastToBool, Complete, OpsFrom, Pushes, Flatten, IsPayToScriptHash, PayToScriptHash, AllFit;
    PushAllEvaluates(sigCtx, values + [inner]);
    AllFitWith(values, inner);
    ScriptHashReads(h);
    if Eval(sigCtx, []).ok {
      PushedArePushes(sigCtx.script, values + [inner]);
      ScriptHashRuns(pubCtx, values, inner, h);
      FlagTruth();
      assert Drop(values + [inner], 1) == values && Top(values + [inner], 1) == inner;
      var after := Eval(pubCtx.(script := inner), values).m.stack;
      if |after| > 0 {
        TrueIffNonzero(Top(after, 1));
      }
    }
  }

  lemma AllFitWith(values: seq<Bytes>, x: Bytes)
    ensures AllFit(values + [x]) <==> |x| <= 520 && forall i :: 0 <= i < |values| ==> |values[i]| <= 520
  {
    var all := values + [x];
    assert all[|values|] == x && forall i :: 0 <= i < |values| ==> all[i] == values[i];
  }

  lemma PushedArePushes(script: Bytes, values: seq<Bytes>)
    requires script == Flatten(Pushed(values)) && |script| <= 10000
    ensures Complete(script, 0) && Pushes(OpsFrom(script, 0))
  {
    hide OpsFrom, Complete, Push, Flatten;
    forall i | 0 <= i < |values|
      ensures |values[i]| < 0x1_0000_0000
    {
      FlattenLonger(values, i);
    }
    assert script[0..] == script;
    PushedOps(script, 0, values);
  }

  /** A spender of a script hash who does more than push is turned away. */
  lemma OnlyPushesSpend(sigCtx: Context, pubCtx: Context, h: Bytes, k: nat)
    requires |h| == 20 && pubCtx.script == PayToScriptHash(h)
    requires k < |OpsFrom(sigCtx.script, 0)| && OpsFrom(sigCtx.script, 0)[k].opcode > 0x60
    ensures !Accepts(sigCtx, pubCtx, true)
  {
    hide Eval, OpsFrom, Complete;
    ScriptHashReads(h);
  }

  /** What counts for spending a script hash: the checks of the script pushed last, if there is nothing but pushes, else none. */
  lemma ScriptHashCounts(pubKey: Bytes, sigScript: Bytes, values: seq<Bytes>, inner: Bytes, h: Bytes, k: nat)
    requires |h| == 20
    ensures pubKey == PayToScriptHash(h) && sigScript == Flatten(Pushed(values + [inner])) && |sigScript| <= 10000 ==>
              SpendCount(pubKey, sigScript) == Count(inner, true)
    ensures pubKey == PayToScriptHash(h) && k < |OpsFrom(sigScript, 0)| && OpsFrom(sigScript, 0)[k].opcode > 0x60 ==>
              SpendCount(pubKey, sigScript) == 0
    ensures |pubKey| != 23 ==> SpendCount(pubKey, sigScript) == Count(pubKey, true)
  {
    hide OpsFrom, Complete, Count, Flatten, PayToScriptHash;
    ScriptHashReads(h);
    if sigScript == Flatten(Pushed(values + [inner])) && |sigScript| <= 10000 {
      PushedArePushes(sigScript, values + [inner]);
      LastPushed(sigScript, values, inner);
    }
  }

  lemma LastPushed(script: Bytes, values: seq<Bytes>, inner: Bytes)
    requires script == Flatten(Pushed(values + [inner])) && |script| <= 10000
    ensures LastData(OpsFrom(script, 0)) == inner
  {
    hide OpsFrom, Complete, Push, Flatten;
    var all := values + [inner];
    forall i | 0 <= i < |all|
      ensures |all[i]| < 0x1_0000_0000
    {
      FlattenLonger(all, i);
    }
    assert script[0..] == script;
    PushedOps(script, 0, all);
  }

  // ----- numbers left by comparisons -----

  /** A comparison leaves the number 1 or 0, spelled [1] and []. */
  lemma ComparisonsLeave(ctx: Context, op: Op, m: Machine, base: seq<Bytes>, x: Bytes, y: Bytes)
    requires m.stack == base + [x, y] && |x| <= 4 && |y| <= 4
    ensures var a, b := SetVch(x), SetVch(y);
            var o := Exec(ctx, op, m);
            && (op.opcode == 0x9a ==> o == Go(m.(stack := base + [if a != 0 && b != 0 then [1] else []])))
            && (op.opcode == 0x9b ==> o == Go(m.(stack := base + [if a != 0 || b != 0 then [1] else []])))
            && (op.opcode == 0x9c ==> o == Go(m.(stack := base + [if a == b then [1] else []])))
            && (op.opcode == 0x9d ==> (o.Go? <==> a == b) && (a == b ==> o == Go(m.(stack := base))))
            && (op.opcode == 0x9e ==> o == Go(m.(stack := base + [if a != b then [1] else []])))
            && (op.opcode == 0x9f ==> o == Go(m.(stack := base + [if a < b then [1] else []])))
            && (op.opcode == 0xa0 ==> o == Go(m.(stack := base + [if a > b then [1] else []])))
            && (op.opcode == 0xa1 ==> o == Go(m.(stack := base + [if a <= b then [1] else []])))
            && (op.opcode == 0xa2 ==> o == Go(m.(stack := base + [if a >= b then [1] else []])))
  {
    hide SetVch, GetVch, CastToBool;
    var s := m.stack;
    assert Drop(s, 2) == base && Top(s, 2) == x && Top(s, 1) == y;
    BitNumbers();
    var r := m.(stack := base + [Flag(SetVch(x) == SetVch(y))]);
    VerifyFlag(r, base, SetVch(x) == SetVch(y));
  }

  lemma BitNumbers()
    ensures GetVch(0) == [] && GetVch(1) == [1]
  {
    OneByte(1);
  }
}
