/**
 The nested reading of a script: statements inside IF ... ELSE ... ENDIF blocks. The
 interpreter never builds this tree; it keeps one flag per open conditional. Here the
 tree is evaluated directly, and the two are shown to agree on every script.
 */
module ScriptTree {
  import opened Bytes
  import opened ScriptMachine
  import opened Wrappers

  /** A sequence of statements. */
  datatype Block =
    | End
    | Plain(op: Op, rest: Block)
    | Cond(open: Op, arms: Arms, rest: Block)

  /** The arms of one conditional, each closed by an ELSE and the last by the ENDIF. */
  datatype Arms =
    | Last(body: Block, close: Op)
    | Then(body: Block, close: Op, others: Arms)

  /** Opcodes stand where the grammar wants them. */
  predicate Proper(b: Block)
  {
    match b
    case End => true
    case Plain(op, rest) => !IsControl(op.opcode) && Proper(rest)
    case Cond(op, arms, rest) => (op.opcode == OP_IF || op.opcode == OP_NOTIF) && ProperArms(arms) && Proper(rest)
  }

  predicate ProperArms(a: Arms)
  {
    match a
    case Last(body, close) => Proper(body) && close.opcode == OP_ENDIF
    case Then(body, close, others) => Proper(body) && close.opcode == OP_ELSE && ProperArms(others)
  }

  /** The instructions of a tree in the order they stand in the script. */
  function Flat(b: Block): (ops: seq<Op>)
  {
    match b
    case End => []
    case Plain(op, rest) => [op] + Flat(rest)
    case Cond(op, arms, rest) => [op] + FlatArms(arms) + Flat(rest)
  }

  function FlatArms(a: Arms): (ops: seq<Op>)
  {
    match a
    case Last(body, close) => Flat(body) + [close]
    case Then(body, close, others) => Flat(body) + [close] + FlatArms(others)
  }

  // ----- direct evaluation -----

  /** Count an instruction and apply the size limit without looking at what it does. */
  function Pass(op: Op, m: Machine): Outcome
  {
    match Account(op, m)
    case Halt(_) => Account(op, m)
    case Go(m1) => Limit(m1)
  }

  /** An executed plain instruction. */
  function Do(ctx: Context, op: Op, m: Machine): Outcome
  {
    match Account(op, m)
    case Halt(_) => Account(op, m)
    case Go(m1) =>
      match Exec(ctx, op, m1)
      case Halt(_) => Exec(ctx, op, m1)
      case Go(m2) => Limit(m2)
  }

  /** The opening of an executed conditional: which way it goes, and the machine behind it. */
  datatype Choice = Chosen(value: bool, m: Machine) | NoChoice(m: Machine)

  function Choose(op: Op, m: Machine): Choice
  {
    match Account(op, m)
    case Halt(m1) => NoChoice(m1)
    case Go(m1) =>
      match Condition(op, m1)
      case None => NoChoice(m1)
      case Some(c) => match Limit(c.1) case Halt(m2) => NoChoice(m2) case Go(m2) => Chosen(c.0, m2)
  }

  /** Evaluate a block; a block that is not live only passes its instructions. */
  function EvalBlock(ctx: Context, b: Block, live: bool, m: Machine): Outcome
  {
    match b
    case End => Go(m)
    case Plain(op, rest) =>
      (match (if live then Do(ctx, op, m) else Pass(op, m))
       case Halt(m1) => Halt(m1)
       case Go(m1) => EvalBlock(ctx, rest, live, m1))
    case Cond(op, arms, rest) =>
      var choice := if live then Choose(op, m)
                    else match Pass(op, m) case Halt(m1) => NoChoice(m1) case Go(m1) => Chosen(false, m1);
      match choice
      case NoChoice(m1) => Halt(m1)
      case Chosen(v, m1) =>
        match EvalArms(ctx, arms, live, v, m1)
        case Halt(m2) => Halt(m2)
        case Go(m2) => EvalBlock(ctx, rest, live, m2)
  }

  /** Of the arms of a live conditional those at even distance from a true choice are live. */
  function EvalArms(ctx: Context, a: Arms, live: bool, take: bool, m: Machine): Outcome
  {
    match a
    case Last(body, close) =>
      (match EvalBlock(ctx, body, live && take, m)
       case Halt(m1) => Halt(m1)
       case Go(m1) => Pass(close, m1))
    case Then(body, close, others) =>
      match EvalBlock(ctx, body, live && take, m)
      case Halt(m1) => Halt(m1)
      case Go(m1) =>
        match Pass(close, m1)
        case Halt(m2) => Halt(m2)
        case Go(m2) => EvalArms(ctx, others, live, !take, m2)
  }

  // ----- the flat loop computes the nested meaning -----

  /** Continue the flat loop after a tree that went well; a tree that failed has failed the script. */
  function Resume(ctx: Context, o: Outcome, ops: seq<Op>, complete: bool, flags: seq<bool>): Result
  {
    match o
    case Halt(m) => Result(false, m)
    case Go(m) => FlatRun(ctx, ops, complete, m, flags)
  }

  lemma AllTrueSnoc(flags: seq<bool>, v: bool)
    ensures AllTrue(flags + [v]) <==> AllTrue(flags) && v
  {
    var s := flags + [v];
    assert s[|flags|] == v;
    assert forall i :: 0 <= i < |flags| ==> s[i] == flags[i];
  }

  /** Continue the flat loop after one turn. */
  function After(ctx: Context, turn: Turn, ops: seq<Op>, complete: bool): Result
  {
    match turn
    case Fail(m) => Result(false, m)
    case More(m, flags) => FlatRun(ctx, ops, complete, m, flags)
  }

  lemma FlatRunCons(ctx: Context, op: Op, ops: seq<Op>, complete: bool, m: Machine, flags: seq<bool>)
    ensures FlatRun(ctx, [op] + ops, complete, m, flags) == After(ctx, FlatStep(ctx, op, m, flags), ops, complete)
  {
    assert ([op] + ops)[1..] == ops;
  }

  /** Running the flat loop over the instructions of a block is evaluating the block, and leaves the flags as they were. */
  lemma {:induction false} FlatIsBlock(ctx: Context, b: Block, ops: seq<Op>, complete: bool, m: Machine, flags: seq<bool>)
    requires Proper(b)
    ensures FlatRun(ctx, Flat(b) + ops, complete, m, flags)
         == Resume(ctx, EvalBlock(ctx, b, AllTrue(flags), m), ops, complete, flags)
    decreases b
  {
    hide FlatRun, Exec, Account, AllTrue, Condition;
    match b
    case End =>
      assert [] + ops == ops;
    case Plain(op, rest) =>
      assert Flat(b) + ops == [op] + (Flat(rest) + ops);
      FlatRunCons(ctx, op, Flat(rest) + ops, complete, m, flags);
      match (if AllTrue(flags) then Do(ctx, op, m) else Pass(op, m)) {
        case Halt(_) =>
        case Go(m1) => FlatIsBlock(ctx, rest, ops, complete, m1, flags);
      }
    case Cond(op, arms, rest) =>
      var tail := Flat(rest) + ops;
      assert Flat(b) + ops == [op] + (FlatArms(arms) + tail);
      FlatRunCons(ctx, op, FlatArms(arms) + tail, complete, m, flags);
      var live := AllTrue(flags);
      var choice := if live then Choose(op, m)
                    else match Pass(op, m) case Halt(m1) => NoChoice(m1) case Go(m1) => Chosen(false, m1);
      match choice
      case NoChoice(_) =>
      case Chosen(v, m1) =>
        FlatIsArms(ctx, arms, tail, complete, v, m1, flags);
        match EvalArms(ctx, arms, live, v, m1)
        case Halt(_) =>
        case Go(m2) => FlatIsBlock(ctx, rest, ops, complete, m2, flags);
  }

  lemma {:induction false} FlatIsArms(ctx: Context, a: Arms, ops: seq<Op>, complete: bool, take: bool, m: Machine, flags: seq<bool>)
    requires ProperArms(a)
    ensures FlatRun(ctx, FlatArms(a) + ops, complete, m, flags + [take])
         == Resume(ctx, EvalArms(ctx, a, AllTrue(flags), take, m), ops, complete, flags)
    decreases a
  {
    hide FlatRun, Exec, Account, AllTrue, Condition;
    var inner := flags + [take];
    AllTrueSnoc(flags, take);
    var after := match a case Last(_, _) => ops case Then(_, _, others) => FlatArms(others) + ops;
    assert FlatArms(a) + ops == Flat(a.body) + ([a.close] + after);
    FlatIsBlock(ctx, a.body, [a.close] + after, complete, m, inner);
    match EvalBlock(ctx, a.body, AllTrue(flags) && take, m)
    case Halt(_) =>
    case Go(m1) =>
      FlatRunCons(ctx, a.close, after, complete, m1, inner);
      assert inner[..|inner| - 1] == flags;
      assert inner[|inner| - 1 := !take] == flags + [!take];
      if a.Then? {
        match Pass(a.close, m1)
        case Halt(_) =>
        case Go(m2) => FlatIsArms(ctx, a.others, ops, complete, !take, m2, flags);
      }
  }

  // ----- which scripts have a tree -----

  /** Conditionals open and close properly, starting `depth` levels down. */
  predicate Balanced(ops: seq<Op>, depth: nat)
    decreases |ops|
  {
    if ops == [] then depth == 0
    else
      var opcode := ops[0].opcode;
      if opcode == OP_IF || opcode == OP_NOTIF then Balanced(ops[1..], depth + 1)
      else if opcode == OP_ELSE then depth > 0 && Balanced(ops[1..], depth)
      else if opcode == OP_ENDIF then depth > 0 && Balanced(ops[1..], depth - 1)
      else !IsControl(opcode) && Balanced(ops[1..], depth)
  }

  /** Only scripts with properly nested conditionals can succeed. */
  lemma {:induction false} UnbalancedFails(ctx: Context, ops: seq<Op>, complete: bool, m: Machine, flags: seq<bool>)
    requires FlatRun(ctx, ops, complete, m, flags).ok
    ensures Balanced(ops, |flags|)
    decreases |ops|
  {
    hide Exec, Account, Limit, AllTrue, Condition;
    if ops != [] {
      match FlatStep(ctx, ops[0], m, flags)
      case Fail(_) =>
      case More(m1, flags1) => UnbalancedFails(ctx, ops[1..], complete, m1, flags1);
    }
  }

  /** Instructions that count against the operation limit. */
  function Counted(ops: seq<Op>): (n: nat)
    decreases |ops|
  {
    if ops == [] then 0 else (if ops[0].opcode > 0x60 then 1 else 0) + Counted(ops[1..])
  }

  lemma {:induction false} CountedConcat(a: seq<Op>, b: seq<Op>)
    ensures Counted(a + b) == Counted(a) + Counted(b)
    decreases |a|
  {
    if a == [] {
      assert a + b == b;
    } else {
      assert (a + b)[1..] == a[1..] + b;
      CountedConcat(a[1..], b);
    }
  }

  /** `m1` differs from `m` in the operation count only. */
  predicate OnlyCounted(m: Machine, m1: Machine)
  {
    m1 == m.(ops := m1.ops)
  }

  /** A skipped block touches neither stack, makes no signature check and moves no code separator; if it is passed, its operators have all been counted. */
  lemma {:induction false} SkippedBlockOnlyCounts(ctx: Context, b: Block, m: Machine)
    requires Proper(b)
    ensures OnlyCounted(m, EvalBlock(ctx, b, false, m).m)
    ensures EvalBlock(ctx, b, false, m).Go? ==> EvalBlock(ctx, b, false, m).m.ops == m.ops + Counted(Flat(b))
    decreases b
  {
    hide Exec;
    match b
    case End =>
    case Plain(op, rest) =>
      match Pass(op, m) {
        case Halt(_) =>
        case Go(m1) => SkippedBlockOnlyCounts(ctx, rest, m1);
      }
    case Cond(op, arms, rest) =>
      CountedConcat([op] + FlatArms(arms), Flat(rest));
      match Pass(op, m) {
        case Halt(_) =>
        case Go(m1) =>
          SkippedArmsOnlyCount(ctx, arms, false, m1);
          match EvalArms(ctx, arms, false, false, m1) {
            case Halt(_) =>
            case Go(m2) => SkippedBlockOnlyCounts(ctx, rest, m2);
          }
      }
  }

  lemma {:induction false} SkippedArmsOnlyCount(ctx: Context, a: Arms, take: bool, m: Machine)
    requires ProperArms(a)
    ensures OnlyCounted(m, EvalArms(ctx, a, false, take, m).m)
    ensures EvalArms(ctx, a, false, take, m).Go? ==> EvalArms(ctx, a, false, take, m).m.ops == m.ops + Counted(FlatArms(a))
    decreases a
  {
    hide Exec;
    SkippedBlockOnlyCounts(ctx, a.body, m);
    CountedConcat(Flat(a.body), [a.close]);
    match EvalBlock(ctx, a.body, false, m)
    case Halt(_) =>
    case Go(m1) =>
      if a.Then? {
        CountedConcat(Flat(a.body) + [a.close], FlatArms(a.others));
        match Pass(a.close, m1) {
          case Halt(_) =>
          case Go(m2) => SkippedArmsOnlyCount(ctx, a.others, !take, m2);
        }
      }
  }

  // ----- building the tree -----

  /** Read a block off the front of a balanced list, up to the end or the ELSE or ENDIF that closes it. */
  lemma {:induction false} ReadBlock(ops: seq<Op>, depth: nat) returns (b: Block, rest: seq<Op>)
    requires Balanced(ops, depth)
    ensures Proper(b) && ops == Flat(b) + rest && Balanced(rest, depth)
    ensures if rest == [] then depth == 0 else depth > 0 && rest[0].opcode in {OP_ELSE, OP_ENDIF}
    decreases |ops|, 1
  {
    if ops == [] {
      b, rest := End, [];
    } else if ops[0].opcode == OP_IF || ops[0].opcode == OP_NOTIF {
      var arms, behind := ReadArms(ops[1..], depth + 1);
      b, rest := ReadBlock(behind, depth);
      b := Cond(ops[0], arms, b);
      assert ops == [ops[0]] + ops[1..];
    } else if ops[0].opcode in {OP_ELSE, OP_ENDIF} {
      b, rest := End, ops;
    } else {
      b, rest := ReadBlock(ops[1..], depth);
      b := Plain(ops[0], b);
      assert ops == [ops[0]] + ops[1..];
    }
  }

  lemma {:induction false} ReadArms(ops: seq<Op>, depth: nat) returns (a: Arms, rest: seq<Op>)
    requires depth > 0 && Balanced(ops, depth)
    ensures ProperArms(a) && ops == FlatArms(a) + rest && Balanced(rest, depth - 1) && |rest| < |ops|
    decreases |ops|, 2
  {
    var body, behind := ReadBlock(ops, depth);
    assert behind == [behind[0]] + behind[1..];
    if behind[0].opcode == OP_ENDIF {
      a, rest := Last(body, behind[0]), behind[1..];
    } else {
      a, rest := ReadArms(behind[1..], depth);
      a := Then(body, behind[0], a);
    }
  }

  lemma {:induction false} BlockIsBalanced(b: Block, ops: seq<Op>, depth: nat)
    requires Proper(b)
    ensures Balanced(Flat(b) + ops, depth) == Balanced(ops, depth)
    decreases b
  {
    match b
    case End =>
      assert [] + ops == ops;
    case Plain(op, rest) =>
      assert (Flat(b) + ops)[1..] == Flat(rest) + ops;
      BlockIsBalanced(rest, ops, depth);
    case Cond(op, arms, rest) =>
      assert (Flat(b) + ops)[1..] == FlatArms(arms) + (Flat(rest) + ops);
      ArmsAreBalanced(arms, Flat(rest) + ops, depth);
      BlockIsBalanced(rest, ops, depth);
  }

  lemma {:induction false} ArmsAreBalanced(a: Arms, ops: seq<Op>, depth: nat)
    requires ProperArms(a)
    ensures Balanced(FlatArms(a) + ops, depth + 1) == Balanced(ops, depth)
    decreases a
  {
    var after := match a case Last(_, _) => ops case Then(_, _, others) => FlatArms(others) + ops;
    assert FlatArms(a) + ops == Flat(a.body) + ([a.close] + after);
    BlockIsBalanced(a.body, [a.close] + after, depth + 1);
    assert ([a.close] + after)[1..] == after;
    if a.Then? {
      ArmsAreBalanced(a.others, ops, depth);
    }
  }

  ghost predicate HasTree(ops: seq<Op>)
  {
    exists b :: Proper(b) && Flat(b) == ops
  }

  /** The scripts that have a nested reading are those whose conditionals open and close properly. */
  lemma TreeIffBalanced(ops: seq<Op>)
    ensures HasTree(ops) <==> Balanced(ops, 0)
  {
    if Balanced(ops, 0) {
      var b, rest := ReadBlock(ops, 0);
      assert Flat(b) + rest == Flat(b);
    }
    if HasTree(ops) {
      var b :| Proper(b) && Flat(b) == ops;
      BlockIsBalanced(b, [], 0);
      assert Flat(b) + [] == ops;
    }
  }

  // ----- the theorem -----

  /** The result of a script by its nested reading. */
  function NestedResult(ctx: Context, b: Block, complete: bool, stack: seq<Bytes>): Result
  {
    match EvalBlock(ctx, b, true, Start(stack))
    case Halt(m) => Result(false, m)
    case Go(m) => Result(complete, m)
  }

  /**
   `EvalScript` gives every script its nested meaning: verdict and stacks are those of any tree
   that spells out its instructions, and a script without such a tree is rejected. A script of
   more than 10000 bytes is rejected as a whole, with the stack untouched.
   */
  lemma EvalIsNested(ctx: Context, stack: seq<Bytes>)
    ensures |ctx.script| > MAX_SCRIPT ==> Eval(ctx, stack) == Result(false, Start(stack))
    ensures |ctx.script| <= MAX_SCRIPT ==>
              var ops := OpsFrom(ctx.script, 0);
              && (forall b :: Proper(b) && Flat(b) == ops ==> Eval(ctx, stack) == NestedResult(ctx, b, Complete(ctx.script, 0), stack))
              && (!HasTree(ops) ==> !Eval(ctx, stack).ok)
  {
    hide FlatStep, EvalBlock, OpsFrom, Complete;
    if |ctx.script| > MAX_SCRIPT {
      return;
    }
    var ops, complete := OpsFrom(ctx.script, 0), Complete(ctx.script, 0);
    forall b | Proper(b) && Flat(b) == ops
      ensures Eval(ctx, stack) == NestedResult(ctx, b, complete, stack)
    {
      FlatIsBlock(ctx, b, [], complete, Start(stack), []);
      assert Flat(b) + [] == ops;
    }
    TreeIffBalanced(ops);
    if Eval(ctx, stack).ok {
      UnbalancedFails(ctx, ops, complete, Start(stack), []);
    }
  }
}
