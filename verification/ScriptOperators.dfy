/**
 What single operators of the script language mean: the stack instructions in terms of two
 primitives, and numbers and truth values as later operators will read them.
 */
module ScriptOperators {
  import opened Bytes
  import opened BigNum
  import opened ScriptBytes
  import opened ScriptMachine
  import opened Wrappers

  // ----- the stack instructions from two primitives -----

  /** Copy the element `n` below the top. */
  function Pick(s: seq<Bytes>, n: nat): (t: seq<Bytes>)
    requires n < |s|
    ensures |t| == |s| + 1
  {
    s + [s[|s| - n - 1]]
  }

  /** Move the element `n` below the top to the top. */
  function Roll(s: seq<Bytes>, n: nat): (t: seq<Bytes>)
    requires n < |s|
    ensures |t| == |s|
  {
    s[..|s| - n - 1] + s[|s| - n..] + [s[|s| - n - 1]]
  }

  /** OP_PICK and OP_ROLL take their depth off the stack as a number. */
  lemma PickAndRoll(m: Machine, s: seq<Bytes>, n: int)
    requires m.stack == s + [GetVch(n)] && -0x8000_0000 < n < 0x8000_0000
    ensures PickOrRoll(false, m).Go? <==> 0 <= n < |s|
    ensures PickOrRoll(true, m).Go? <==> 0 <= n < |s|
    ensures 0 <= n < |s| ==> PickOrRoll(false, m) == Go(m.(stack := Pick(s, n)))
    ensures 0 <= n < |s| ==> PickOrRoll(true, m) == Go(m.(stack := Roll(s, n)))
  {
    SetGetVch(n);
    FourByteNumbers(n);
    hide SetVch, GetVch;
    assert Drop(m.stack, 1) == s;
    if 0 <= n < |s| {
      assert s[|s| - n - 1 + 1..] == s[|s| - n..];
    }
  }

  predicate Yields(opcode: byte, s: seq<Bytes>, t: seq<Bytes>)
  {
    Shuffle(opcode, s).Some? && Shuffle(opcode, s).value == t
  }

  /** The fixed shuffles are picks and rolls at fixed depths. */
  lemma ShufflesOfTwo(s: seq<Bytes>)
    requires |s| >= 2
    ensures Yields(OP_DUP, s, Pick(s, 0))
    ensures Yields(OP_2DUP, s, Pick(Pick(s, 1), 1))
    ensures Yields(OP_OVER, s, Pick(s, 1))
    ensures Yields(OP_SWAP, s, Roll(s, 1))
    ensures Yields(OP_NIP, s, Drop(Roll(s, 1), 1))
    ensures Yields(OP_TUCK, s, Pick(Roll(s, 1), 1))
  {
    var n := |s|;
    assert Roll(s, 1) == s[..n - 2] + [s[n - 1], s[n - 2]];
    assert s[..n - 2] + [s[n - 1]] + s[n - 2..] == Pick(Roll(s, 1), 1);
  }

  lemma ShufflesOfThree(s: seq<Bytes>)
    requires |s| >= 3
    ensures Yields(OP_3DUP, s, Pick(Pick(Pick(s, 2), 2), 2))
    ensures Yields(OP_ROT, s, Roll(s, 2))
  {
    var n := |s|;
    assert Roll(s, 2) == s[..n - 3] + [s[n - 2], s[n - 1], s[n - 3]];
  }

  lemma ShufflesOfFour(s: seq<Bytes>)
    requires |s| >= 4
    ensures Yields(OP_2OVER, s, Pick(Pick(s, 3), 3))
    ensures Yields(OP_2SWAP, s, Roll(Roll(s, 3), 3))
  {
    var n := |s|;
    assert Roll(s, 3) == s[..n - 4] + [s[n - 3], s[n - 2], s[n - 1], s[n - 4]];
    assert Roll(Roll(s, 3), 3) == s[..n - 4] + [s[n - 2], s[n - 1], s[n - 4], s[n - 3]];
    assert s[n - 4 := s[n - 2]][n - 2 := s[n - 4]][n - 3 := s[n - 1]][n - 1 := s[n - 3]]
        == s[..n - 4] + [s[n - 2], s[n - 1], s[n - 4], s[n - 3]];
  }

  lemma ShufflesOfSix(s: seq<Bytes>)
    requires |s| >= 6
    ensures Yields(OP_2ROT, s, Roll(Roll(s, 5), 5))
  {
    var n := |s|;
    assert Roll(s, 5) == s[..n - 6] + [s[n - 5], s[n - 4], s[n - 3], s[n - 2], s[n - 1], s[n - 6]];
    assert Roll(Roll(s, 5), 5) == s[..n - 6] + [s[n - 4], s[n - 3], s[n - 2], s[n - 1], s[n - 6], s[n - 5]];
  }

  // ----- shuffles as scripts -----

  /** The instruction that pushes a small number. */
  function Small(n: nat): Op
    requires n <= 16
  {
    Op(if n == 0 then 0 else OP_1 - 1 + n, [], 0)
  }

  function Plain(opcode: byte): Op
  {
    Op(opcode, [], 0)
  }

  function PickAt(n: nat): seq<Op>
    requires n <= 16
  {
    [Small(n), Plain(OP_PICK)]
  }

  function RollAt(n: nat): seq<Op>
    requires n <= 16
  {
    [Small(n), Plain(OP_ROLL)]
  }

  /** A script of picks, rolls and drops for each of the fixed stack instructions. */
  function Expansion(opcode: byte): (ops: seq<Op>)
  {
    match opcode
    case 0x6d => [Plain(OP_DROP), Plain(OP_DROP)]
    case 0x6e => PickAt(1) + PickAt(1)
    case 0x6f => PickAt(2) + PickAt(2) + PickAt(2)
    case 0x70 => PickAt(3) + PickAt(3)
    case 0x71 => RollAt(5) + RollAt(5)
    case 0x72 => RollAt(3) + RollAt(3)
    case 0x76 => PickAt(0)
    case 0x77 => RollAt(1) + [Plain(OP_DROP)]
    case 0x78 => PickAt(1)
    case 0x7b => RollAt(2)
    case 0x7c => RollAt(1)
    case 0x7d => RollAt(1) + PickAt(1)
    case _ => []
  }

  /** Execute instructions one after the other, without the bookkeeping of the main loop. */
  function ExecAll(ctx: Context, ops: seq<Op>, m: Machine): (o: Outcome)
    decreases |ops|
  {
    if ops == [] then Go(m)
    else match Exec(ctx, ops[0], m) case Halt(m1) => Halt(m1) case Go(m1) => ExecAll(ctx, ops[1..], m1)
  }

  lemma {:induction false} ExecConcat(ctx: Context, a: seq<Op>, b: seq<Op>, m: Machine)
    ensures ExecAll(ctx, a + b, m) == match ExecAll(ctx, a, m) case Halt(m1) => Halt(m1) case Go(m1) => ExecAll(ctx, b, m1)
    decreases |a|
  {
    hide Exec;
    if a == [] {
      assert a + b == b;
    } else {
      assert (a + b)[0] == a[0] && (a + b)[1..] == a[1..] + b;
      match Exec(ctx, a[0], m)
      case Halt(_) =>
      case Go(m1) => ExecConcat(ctx, a[1..], b, m1);
    }
  }

  lemma ExecOne(ctx: Context, op: Op, m: Machine)
    ensures ExecAll(ctx, [op], m) == Exec(ctx, op, m)
  {
    hide Exec;
    assert [op][1..] == [];
  }

  /** A small number and a pick or roll behind it. */
  lemma AtDepth(ctx: Context, n: nat, roll: bool, m: Machine)
    requires n <= 16
    ensures var o := ExecAll(ctx, if roll then RollAt(n) else PickAt(n), m);
            && (o.Go? <==> n < |m.stack|)
            && (n < |m.stack| ==> o == Go(m.(stack := if roll then Roll(m.stack, n) else Pick(m.stack, n))))
  {
    var op, m1 := Plain(if roll then OP_ROLL else OP_PICK), m.(stack := m.stack + [GetVch(n)]);
    SmallPushes(ctx, n, m);
    PickAndRoll(m1, m.stack, n);
    assert Exec(ctx, op, m1) == PickOrRoll(roll, m1);
    assert [Small(n), op] == [Small(n)] + [op];
    ExecConcat(ctx, [Small(n)], [op], m);
    ExecOne(ctx, Small(n), m);
    ExecOne(ctx, op, m1);
    hide Exec, ExecAll, GetVch, PickOrRoll, Pick, Roll;
  }

  lemma SmallPushes(ctx: Context, n: nat, m: Machine)
    requires n <= 16
    ensures Exec(ctx, Small(n), m) == Go(m.(stack := m.stack + [GetVch(n)]))
  {
  }

  lemma OneDrop(ctx: Context, m: Machine)
    ensures ExecAll(ctx, [Plain(OP_DROP)], m) == if |m.stack| > 0 then Go(m.(stack := Drop(m.stack, 1))) else Halt(m)
  {
    ExecOne(ctx, Plain(OP_DROP), m);
  }

  /** Two such steps in a row, each a pick or a roll. */
  lemma TwoAtDepth(ctx: Context, n: nat, roll: bool, k: nat, roll2: bool, m: Machine)
    requires n <= 16 && k <= 16
    ensures var a, b := if roll then RollAt(n) else PickAt(n), if roll2 then RollAt(k) else PickAt(k);
            var o := ExecAll(ctx, a + b, m);
            var s := if n < |m.stack| then (if roll then Roll(m.stack, n) else Pick(m.stack, n)) else [];
            && (o.Go? <==> n < |m.stack| && k < |s|)
            && (o.Go? ==> o == Go(m.(stack := if roll2 then Roll(s, k) else Pick(s, k))))
  {
    var a, b := if roll then RollAt(n) else PickAt(n), if roll2 then RollAt(k) else PickAt(k);
    ExecConcat(ctx, a, b, m);
    AtDepth(ctx, n, roll, m);
    if n < |m.stack| {
      AtDepth(ctx, k, roll2, m.(stack := if roll then Roll(m.stack, n) else Pick(m.stack, n)));
    }
    hide ExecAll, Pick, Roll, PickAt, RollAt;
  }

  /** A shuffle as its execution sees it. */
  lemma ShuffleExec(ctx: Context, op: Op, m: Machine)
    requires Expansion(op.opcode) != []
    ensures Exec(ctx, op, m) == match Shuffle(op.opcode, m.stack) case None => Halt(m) case Some(t) => Go(m.(stack := t))
  {
    hide Shuffle;
  }

  /** `op` does to `m` what the script `ops` does, and can do it exactly when the script can. */
  predicate DoneBy(ctx: Context, op: Op, ops: seq<Op>, m: Machine)
  {
    && (Exec(ctx, op, m).Go? <==> ExecAll(ctx, ops, m).Go?)
    && (Exec(ctx, op, m).Go? ==> Exec(ctx, op, m) == ExecAll(ctx, ops, m))
  }

  /** Each of the fixed stack instructions can be replaced by its script of picks, rolls and drops, on every stack. */
  lemma ShufflesExpand(ctx: Context, op: Op, m: Machine)
    requires Expansion(op.opcode) != []
    ensures DoneBy(ctx, op, Expansion(op.opcode), m)
  {
    ShuffleExec(ctx, op, m);
    if IsSingle(op.opcode) {
      SingleExpands(ctx, op, m);
    } else if IsDouble(op.opcode) {
      DoubleExpands(ctx, op, m);
    } else if op.opcode == OP_2DROP {
      DropsExpand(ctx, op, m);
    } else if op.opcode == OP_NIP {
      NipExpands(ctx, op, m);
    } else {
      ThreeDupExpands(ctx, op, m);
    }
  }

  /** How many elements an instruction needs. */
  function Arity(opcode: byte): nat
  {
    match opcode
    case 0x76 => 1
    case 0x6f => 3
    case 0x7b => 3
    case 0x70 => 4
    case 0x72 => 4
    case 0x71 => 6
    case _ => 2
  }

  lemma ShuffleNeeds(opcode: byte, s: seq<Bytes>)
    requires Expansion(opcode) != []
    ensures Shuffle(opcode, s).Some? <==> |s| >= Arity(opcode)
  {
  }

  lemma SingleExpands(ctx: Context, op: Op, m: Machine)
    requires IsSingle(op.opcode)
    ensures DoneBy(ctx, op, Expansion(op.opcode), m)
  {
    hide *;
    SingleExpansion(op.opcode);
    ShuffleNeeds(op.opcode, m.stack);
    SingleMoves(op.opcode, m.stack);
    OneExpand(ctx, op, SingleDepth(op.opcode), SingleRolls(op.opcode), m);
  }

  predicate IsSingle(opcode: byte) { opcode in {OP_DUP, OP_OVER, OP_ROT, OP_SWAP} }

  predicate SingleRolls(opcode: byte) { opcode in {OP_ROT, OP_SWAP} }

  lemma SingleExpansion(opcode: byte)
    requires IsSingle(opcode)
    ensures Expansion(opcode) == (if SingleRolls(opcode) then RollAt(SingleDepth(opcode)) else PickAt(SingleDepth(opcode))) != []
  {
  }

  function SingleDepth(opcode: byte): (n: nat)
    ensures n <= 2
  {
    if opcode == OP_DUP then 0 else if opcode == OP_ROT then 2 else 1
  }

  lemma SingleMoves(opcode: byte, s: seq<Bytes>)
    requires IsSingle(opcode)
    ensures Arity(opcode) == SingleDepth(opcode) + 1
    ensures |s| > SingleDepth(opcode) ==> Yields(opcode, s, Moved(s, SingleDepth(opcode), SingleRolls(opcode)))
  {
    hide Shuffle, Pick, Roll, Yields;
    if opcode == OP_DUP {
      if |s| >= 1 { DupIsPick(s); }
    } else if opcode == OP_ROT {
      if |s| >= 3 { ShufflesOfThree(s); }
    } else {
      if |s| >= 2 { ShufflesOfTwo(s); }
    }
  }

  lemma DupIsPick(s: seq<Bytes>)
    requires |s| >= 1
    ensures Yields(OP_DUP, s, Pick(s, 0))
  {
  }

  lemma OneExpand(ctx: Context, op: Op, n: nat, roll: bool, m: Machine)
    requires n <= 16 && Expansion(op.opcode) == (if roll then RollAt(n) else PickAt(n)) && Expansion(op.opcode) != []
    requires Shuffle(op.opcode, m.stack).Some? <==> |m.stack| > n
    requires |m.stack| > n ==> Yields(op.opcode, m.stack, Moved(m.stack, n, roll))
    ensures DoneBy(ctx, op, Expansion(op.opcode), m)
  {
    ShuffleExec(ctx, op, m);
    AtDepth(ctx, n, roll, m);
    hide Exec, ExecAll, PickAt, RollAt, Shuffle, Expansion, Pick, Roll;
  }

  /** The two moves of an instruction that is two moves, and their depth. */
  function DoubleDepth(opcode: byte): (n: nat)
    ensures n <= 5
  {
    if opcode == OP_2ROT then 5 else if opcode in {OP_2OVER, OP_2SWAP} then 3 else 1
  }

  predicate FirstRolls(opcode: byte) { opcode in {OP_2ROT, OP_2SWAP, OP_TUCK} }

  predicate SecondRolls(opcode: byte) { opcode in {OP_2ROT, OP_2SWAP} }

  predicate IsDouble(opcode: byte) { opcode in {OP_2DUP, OP_2OVER, OP_2ROT, OP_2SWAP, OP_TUCK} }

  lemma DoubleMoves(opcode: byte, s: seq<Bytes>)
    requires IsDouble(opcode)
    ensures Arity(opcode) == DoubleDepth(opcode) + 1
    ensures var n := DoubleDepth(opcode);
            |s| > n ==> Yields(opcode, s, Moved(Moved(s, n, FirstRolls(opcode)), n, SecondRolls(opcode)))
  {
    hide Shuffle, Pick, Roll, Yields;
    if opcode == OP_2ROT {
      if |s| >= 6 { ShufflesOfSix(s); }
    } else if opcode in {OP_2OVER, OP_2SWAP} {
      if |s| >= 4 { ShufflesOfFour(s); }
    } else {
      if |s| >= 2 { ShufflesOfTwo(s); }
    }
  }

  lemma DoubleExpansion(opcode: byte)
    requires IsDouble(opcode)
    ensures var n := DoubleDepth(opcode);
            Expansion(opcode) == (if FirstRolls(opcode) then RollAt(n) else PickAt(n)) + (if SecondRolls(opcode) then RollAt(n) else PickAt(n))
    ensures Expansion(opcode) != []
  {
  }

  lemma DoubleExpands(ctx: Context, op: Op, m: Machine)
    requires IsDouble(op.opcode)
    ensures DoneBy(ctx, op, Expansion(op.opcode), m)
  {
    hide *;
    var n := DoubleDepth(op.opcode);
    DoubleExpansion(op.opcode);
    ShuffleNeeds(op.opcode, m.stack);
    DoubleMoves(op.opcode, m.stack);
    TwoExpand(ctx, op, n, FirstRolls(op.opcode), n, SecondRolls(op.opcode), m);
  }

  /** The stack after a pick or roll. */
  function Moved(s: seq<Bytes>, n: nat, roll: bool): (t: seq<Bytes>)
    requires n < |s|
    ensures |t| == if roll then |s| else |s| + 1
  {
    if roll then Roll(s, n) else Pick(s, n)
  }

  /** An instruction that yields what two moves yield, on the same stacks. */
  lemma TwoExpand(ctx: Context, op: Op, n: nat, roll: bool, k: nat, roll2: bool, m: Machine)
    requires k <= n <= 16
    requires Expansion(op.opcode) == (if roll then RollAt(n) else PickAt(n)) + (if roll2 then RollAt(k) else PickAt(k)) && Expansion(op.opcode) != []
    requires Shuffle(op.opcode, m.stack).Some? <==> |m.stack| > n
    requires |m.stack| > n ==> Yields(op.opcode, m.stack, Moved(Moved(m.stack, n, roll), k, roll2))
    ensures DoneBy(ctx, op, Expansion(op.opcode), m)
  {
    ShuffleExec(ctx, op, m);
    TwoAtDepth(ctx, n, roll, k, roll2, m);
    hide Exec, ExecAll, PickAt, RollAt, Shuffle, Expansion, Pick, Roll;
  }

  /** An instruction and a script that leave the same stack on the same condition. */
  lemma SameEffect(ctx: Context, op: Op, ops: seq<Op>, m: Machine, t: seq<Bytes>)
    requires Expansion(op.opcode) == ops && ops != []
    requires Shuffle(op.opcode, m.stack).Some? <==> ExecAll(ctx, ops, m).Go?
    requires ExecAll(ctx, ops, m).Go? ==> Yields(op.opcode, m.stack, t) && ExecAll(ctx, ops, m) == Go(m.(stack := t))
    ensures DoneBy(ctx, op, Expansion(op.opcode), m)
  {
    ShuffleExec(ctx, op, m);
    hide Exec, ExecAll, Shuffle, Expansion;
  }

  lemma OtherExpansions()
    ensures Expansion(OP_2DROP) == [Plain(OP_DROP)] + [Plain(OP_DROP)]
    ensures Expansion(OP_NIP) == RollAt(1) + [Plain(OP_DROP)]
    ensures Expansion(OP_3DUP) == PickAt(2) + PickAt(2) + PickAt(2) != []
    ensures Arity(OP_2DROP) == Arity(OP_NIP) == 2 && Arity(OP_3DUP) == 3
  {
  }

  lemma DropsExpand(ctx: Context, op: Op, m: Machine)
    requires op.opcode == OP_2DROP
    ensures DoneBy(ctx, op, Expansion(op.opcode), m)
  {
    hide Shuffle, Exec, ExecAll, PickAt, RollAt, Drop, Roll, Pick, Yields, DoneBy, Expansion, Plain, Arity;
    OtherExpansions();
    ShuffleNeeds(op.opcode, m.stack);
    DroppedTwice(ctx, m);
    SameEffect(ctx, op, [Plain(OP_DROP)] + [Plain(OP_DROP)], m, if |m.stack| >= 2 then Drop(m.stack, 2) else []);
  }

  lemma DroppedTwice(ctx: Context, m: Machine)
    ensures var o := ExecAll(ctx, [Plain(OP_DROP)] + [Plain(OP_DROP)], m);
            && (o.Go? <==> |m.stack| >= 2)
            && (o.Go? ==> o == Go(m.(stack := Drop(m.stack, 2))) && Yields(OP_2DROP, m.stack, Drop(m.stack, 2)))
  {
    hide Exec, ExecAll, Plain;
    ExecConcat(ctx, [Plain(OP_DROP)], [Plain(OP_DROP)], m);
    OneDrop(ctx, m);
    if |m.stack| > 0 {
      OneDrop(ctx, m.(stack := Drop(m.stack, 1)));
    }
    assert |m.stack| >= 2 ==> Drop(Drop(m.stack, 1), 1) == Drop(m.stack, 2);
  }

  lemma NipExpands(ctx: Context, op: Op, m: Machine)
    requires op.opcode == OP_NIP
    ensures DoneBy(ctx, op, Expansion(op.opcode), m)
  {
    hide Shuffle, Exec, ExecAll, PickAt, RollAt, Drop, Roll, Pick, Yields, DoneBy, Expansion, Plain, Arity;
    OtherExpansions();
    ShuffleNeeds(op.opcode, m.stack);
    RolledAndDropped(ctx, m);
    if |m.stack| >= 2 {
      ShufflesOfTwo(m.stack);
    }
    SameEffect(ctx, op, RollAt(1) + [Plain(OP_DROP)], m, if |m.stack| >= 2 then Drop(Roll(m.stack, 1), 1) else []);
  }

  lemma RolledAndDropped(ctx: Context, m: Machine)
    ensures var o := ExecAll(ctx, RollAt(1) + [Plain(OP_DROP)], m);
            && (o.Go? <==> |m.stack| >= 2)
            && (o.Go? ==> o == Go(m.(stack := Drop(Roll(m.stack, 1), 1))))
  {
    hide Exec, ExecAll, Drop, Roll, RollAt, Plain;
    ExecConcat(ctx, RollAt(1), [Plain(OP_DROP)], m);
    AtDepth(ctx, 1, true, m);
    if |m.stack| >= 2 {
      OneDrop(ctx, m.(stack := Roll(m.stack, 1)));
    }
  }

  lemma ThreeDupExpands(ctx: Context, op: Op, m: Machine)
    requires op.opcode == OP_3DUP
    ensures DoneBy(ctx, op, Expansion(op.opcode), m)
  {
    hide Shuffle, Exec, ExecAll, PickAt, RollAt, Drop, Roll, Pick, Yields, DoneBy, Expansion, Plain, Arity;
    OtherExpansions();
    ShuffleNeeds(op.opcode, m.stack);
    PickedThrice(ctx, m);
    if |m.stack| >= 3 {
      ShufflesOfThree(m.stack);
    }
    SameEffect(ctx, op, PickAt(2) + PickAt(2) + PickAt(2), m,
               if |m.stack| >= 3 then Pick(Pick(Pick(m.stack, 2), 2), 2) else []);
  }

  lemma PickedThrice(ctx: Context, m: Machine)
    ensures var o := ExecAll(ctx, PickAt(2) + PickAt(2) + PickAt(2), m);
            && (o.Go? <==> |m.stack| >= 3)
            && (o.Go? ==> o == Go(m.(stack := Pick(Pick(Pick(m.stack, 2), 2), 2))))
  {
    hide Exec, ExecAll, Pick, PickAt;
    ExecConcat(ctx, PickAt(2) + PickAt(2), PickAt(2), m);
    TwoAtDepth(ctx, 2, false, 2, false, m);
    if |m.stack| >= 3 {
      AtDepth(ctx, 2, false, m.(stack := Pick(Pick(m.stack, 2), 2)));
    }
  }

  // ----- what later operators read -----

  /** A machine with this stack. */
  function On(m: Machine, stack: seq<Bytes>): Machine
  {
    m.(stack := stack)
  }

  /** `o` goes on with `base` and one element more, which counts as true exactly if `truth` holds. */
  predicate Decides(o: Outcome, m: Machine, base: seq<Bytes>, truth: bool)
  {
    && o.Go? && o.m == On(m, o.m.stack)
    && |o.m.stack| == |base| + 1 && o.m.stack[..|base|] == base
    && CastToBool(o.m.stack[|base|]) == truth
  }

  /** `o` goes on with `base` and one element more, which spells the number `n`. */
  predicate Spells(o: Outcome, m: Machine, base: seq<Bytes>, n: int)
  {
    && o.Go? && o.m == On(m, o.m.stack)
    && |o.m.stack| == |base| + 1 && o.m.stack[..|base|] == base
    && SetVch(o.m.stack[|base|]) == n
  }

  lemma TwoOperands(base: seq<Bytes>, x: Bytes, y: Bytes)
    ensures var s := base + [x, y]; Top(s, 2) == x && Top(s, 1) == y && Drop(s, 2) == base
    ensures var s := base + [x]; Top(s, 1) == x && Drop(s, 1) == base
  {
  }

  /** Whatever number is pushed, its bytes spell it and count as true when it is not zero. */
  lemma PushedNumber(m: Machine, base: seq<Bytes>, n: int)
    ensures Spells(Go(On(m, base + [GetVch(n)])), m, base, n)
    ensures Decides(Go(On(m, base + [GetVch(n)])), m, base, n != 0)
  {
    SetGetVch(n);
    TrueIffNonzero(GetVch(n));
    hide SetVch, GetVch, CastToBool;
    assert (base + [GetVch(n)])[..|base|] == base;
  }

  /** The relation that a comparison stands for. */
  predicate Relation(opcode: byte, a: int, b: int)
  {
    match opcode
    case 0x9c => a == b
    case 0x9e => a != b
    case 0x9f => a < b
    case 0xa0 => a > b
    case 0xa1 => a <= b
    case 0xa2 => a >= b
    case 0x9a => a != 0 && b != 0
    case _ => a != 0 || b != 0
  }

  /** Comparisons and connectives decide what they say of the numbers spelled by their operands; the first operand lies deeper. */
  lemma ComparisonsDecide(opcode: byte, m: Machine, base: seq<Bytes>, x: Bytes, y: Bytes)
    requires opcode in {OP_BOOLAND, OP_BOOLOR, OP_NUMEQUAL, OP_NUMNOTEQUAL, OP_LESSTHAN, OP_GREATERTHAN, OP_LESSTHANOREQUAL, OP_GREATERTHANOREQUAL}
    requires m.stack == base + [x, y] && |x| <= 4 && |y| <= 4
    ensures Decides(Numeric(opcode, m), m, base, Relation(opcode, SetVch(x), SetVch(y)))
  {
    TwoOperands(base, x, y);
    PushedNumber(m, base, Binary(opcode, SetVch(x), SetVch(y)));
    hide SetVch, GetVch, CastToBool, Spells, Decides;
  }

  /** NUMEQUALVERIFY goes on, without its operands, exactly when they spell the same number. */
  lemma NumEqualVerifyDecides(m: Machine, base: seq<Bytes>, x: Bytes, y: Bytes)
    requires m.stack == base + [x, y] && |x| <= 4 && |y| <= 4
    ensures Numeric(OP_NUMEQUALVERIFY, m).Go? <==> SetVch(x) == SetVch(y)
    ensures Numeric(OP_NUMEQUALVERIFY, m).Go? ==> Numeric(OP_NUMEQUALVERIFY, m).m == On(m, base)
  {
    TwoOperands(base, x, y);
    var c := GetVch(Binary(OP_NUMEQUALVERIFY, SetVch(x), SetVch(y)));
    TwoOperands(base, c, c);
    PushedNumber(m, base, Binary(OP_NUMEQUALVERIFY, SetVch(x), SetVch(y)));
    hide SetVch, GetVch, CastToBool;
  }

  /** An IF, NOTIF or VERIFY right behind a comparison branches, or goes on, exactly by the relation between the numbers, with nothing of it left on the stack. */
  lemma ComparisonsBranch(opcode: byte, m: Machine, base: seq<Bytes>, x: Bytes, y: Bytes, branch: Op)
    requires opcode in {OP_BOOLAND, OP_BOOLOR, OP_NUMEQUAL, OP_NUMNOTEQUAL, OP_LESSTHAN, OP_GREATERTHAN, OP_LESSTHANOREQUAL, OP_GREATERTHANOREQUAL}
    requires m.stack == base + [x, y] && |x| <= 4 && |y| <= 4
    ensures var r, holds := Numeric(opcode, m), Relation(opcode, SetVch(x), SetVch(y));
            && r.Go?
            && (branch.opcode == OP_IF ==> Condition(branch, r.m) == Some((holds, On(m, base))))
            && (branch.opcode == OP_NOTIF ==> Condition(branch, r.m) == Some((!holds, On(m, base))))
            && (Verify(r.m).Go? <==> holds) && (holds ==> Verify(r.m) == Go(On(m, base)))
            && (opcode == OP_NUMEQUAL ==> (Numeric(OP_NUMEQUALVERIFY, m).Go? <==> holds)
                                          && (holds ==> Numeric(OP_NUMEQUALVERIFY, m) == Verify(r.m)))
  {
    ComparisonsDecide(opcode, m, base, x, y);
    NumEqualVerifyDecides(m, base, x, y);
    var r := Numeric(opcode, m);
    var t := r.m.stack;
    assert Top(t, 1) == t[|base|] && Drop(t, 1) == base;
    hide Numeric, CastToBool, SetVch, Relation;
  }

  lemma BinaryPushes(opcode: byte, m: Machine, base: seq<Bytes>, x: Bytes, y: Bytes)
    requires opcode in {OP_ADD, OP_SUB, OP_MIN, OP_MAX} && m.stack == base + [x, y] && |x| <= 4 && |y| <= 4
    ensures Spells(Numeric(opcode, m), m, base, Binary(opcode, SetVch(x), SetVch(y)))
  {
    TwoOperands(base, x, y);
    PushedNumber(m, base, Binary(opcode, SetVch(x), SetVch(y)));
    hide SetVch, GetVch, CastToBool, Spells, Decides;
  }

  /** Sums, differences and extremes are those of the numbers spelled, whether or not the result still fits an operand. */
  lemma ArithmeticSpells(m: Machine, base: seq<Bytes>, x: Bytes, y: Bytes)
    requires m.stack == base + [x, y] && |x| <= 4 && |y| <= 4
    ensures var a, b := SetVch(x), SetVch(y);
            && Spells(Numeric(OP_ADD, m), m, base, a + b)
            && Spells(Numeric(OP_SUB, m), m, base, a - b)
            && (forall n :: Spells(Numeric(OP_MIN, m), m, base, n) <==> (n == a || n == b) && n <= a && n <= b)
            && (forall n :: Spells(Numeric(OP_MAX, m), m, base, n) <==> (n == a || n == b) && n >= a && n >= b)
  {
    BinaryPushes(OP_ADD, m, base, x, y);
    BinaryPushes(OP_SUB, m, base, x, y);
    BinaryPushes(OP_MIN, m, base, x, y);
    BinaryPushes(OP_MAX, m, base, x, y);
    SpellsOne(Numeric(OP_MIN, m), m, base);
    SpellsOne(Numeric(OP_MAX, m), m, base);
    hide Numeric, SetVch, GetVch, CastToBool, Spells, Decides;
  }

  lemma SpellsOne(o: Outcome, m: Machine, base: seq<Bytes>)
    ensures forall n, k :: Spells(o, m, base, n) && Spells(o, m, base, k) ==> n == k
  {
  }

  lemma UnaryPushes(opcode: byte, m: Machine, base: seq<Bytes>, x: Bytes)
    requires IsUnary(opcode) && m.stack == base + [x] && |x| <= 4
    ensures Spells(Numeric(opcode, m), m, base, Unary(opcode, SetVch(x)))
    ensures Decides(Numeric(opcode, m), m, base, Unary(opcode, SetVch(x)) != 0)
  {
    TwoOperands(base, x, x);
    PushedNumber(m, base, Unary(opcode, SetVch(x)));
    hide SetVch, GetVch, CastToBool, Spells, Decides;
  }

  /** The operators of one number, as later ones read their results. */
  lemma UnarySpells(m: Machine, base: seq<Bytes>, x: Bytes)
    requires m.stack == base + [x] && |x| <= 4
    ensures var a := SetVch(x);
            && Spells(Numeric(OP_1ADD, m), m, base, a + 1) && Spells(Numeric(OP_1SUB, m), m, base, a - 1)
            && Spells(Numeric(OP_NEGATE, m), m, base, 0 - a)
            && Decides(Numeric(OP_NOT, m), m, base, a == 0) && Decides(Numeric(OP_0NOTEQUAL, m), m, base, a != 0)
  {
    UnaryPushes(OP_1ADD, m, base, x);
    UnaryPushes(OP_1SUB, m, base, x);
    UnaryPushes(OP_NEGATE, m, base, x);
    UnaryPushes(OP_NOT, m, base, x);
    UnaryPushes(OP_0NOTEQUAL, m, base, x);
    hide Numeric, SetVch, GetVch, CastToBool, Spells, Decides;
  }

  /** ABS leaves the one of a number and its negation that is not negative. */
  lemma AbsSpells(m: Machine, base: seq<Bytes>, x: Bytes)
    requires m.stack == base + [x] && |x| <= 4
    ensures forall n :: Spells(Numeric(OP_ABS, m), m, base, n) <==> n >= 0 && (n == SetVch(x) || n == 0 - SetVch(x))
  {
    UnaryPushes(OP_ABS, m, base, x);
    SpellsOne(Numeric(OP_ABS, m), m, base);
    hide Numeric, SetVch, GetVch, CastToBool, Spells, Decides;
  }

  /** WITHIN decides whether the deepest of three lies in the half-open interval of the other two. */
  lemma WithinDecides(m: Machine, base: seq<Bytes>, x: Bytes, lo: Bytes, hi: Bytes)
    requires m.stack == base + [x, lo, hi] && |x| <= 4 && |lo| <= 4 && |hi| <= 4
    ensures Decides(Numeric(OP_WITHIN, m), m, base, SetVch(lo) <= SetVch(x) < SetVch(hi))
  {
    assert Drop(m.stack, 3) == base;
    hide SetVch, GetVch;
    var r := Numeric(OP_WITHIN, m);
    assert r.m.stack == base + [Flag(SetVch(lo) <= SetVch(x) < SetVch(hi))];
    assert Flag(true)[0] == 1;
  }

  /** Places on the stack, counted from the top, that an operator reads as numbers; a multisig finds the second count by the first. */
  function NumberPlaces(opcode: byte, m: Machine): (places: set<nat>)
  {
    if IsUnary(opcode) || opcode == OP_PICK || opcode == OP_ROLL then {1}
    else if IsBinary(opcode) then {1, 2}
    else if opcode == OP_WITHIN then {1, 2, 3}
    else if opcode == OP_CHECKMULTISIG || opcode == OP_CHECKMULTISIGVERIFY then
      if |m.stack| > 0 && |Top(m.stack, 1)| <= 4 && SetVch(Top(m.stack, 1)) >= 0 then {1, SetVch(Top(m.stack, 1)) + 2} else {1}
    else {}
  }

  /** Wherever an operator reads a number, more than four bytes stop the script, with both stacks as they were and no signature checked. */
  lemma LongOperandsStop(ctx: Context, op: Op, m: Machine, i: nat)
    requires i in NumberPlaces(op.opcode, m) && i <= |m.stack| && |Top(m.stack, i)| > 4
    ensures var r := Exec(ctx, op, m);
            r.Halt? && r.m.stack == m.stack && r.m.alt == m.alt && r.m.sigChecks == m.sigChecks
  {
    hide Shuffle, CheckSigOp, CodeWithout, CodeFrom, CastToBool, SetVch, GetVch, Unary, Binary;
  }

  /** EQUAL compares bytes; EQUALVERIFY goes on, without its operands, exactly when they are equal. */
  lemma EqualDecides(m: Machine, base: seq<Bytes>, x: Bytes, y: Bytes)
    requires m.stack == base + [x, y]
    ensures Decides(Equal(false, m), m, base, x == y)
    ensures Equal(true, m).Go? <==> x == y
    ensures Equal(true, m).Go? ==> Equal(true, m).m == On(m, base)
  {
    TwoOperands(base, x, y);
    TwoOperands(base, Flag(x == y), Flag(x == y));
    assert Flag(true)[0] == 1;
    assert (base + [Flag(x == y)])[..|base|] == base;
  }

  /** SIZE and DEPTH push numbers that spell the length of the top element and the height of the stack. */
  lemma SizeAndDepthSpell(ctx: Context, m: Machine, size: Op, depth: Op)
    requires size.opcode == OP_SIZE && depth.opcode == OP_DEPTH
    ensures Spells(Exec(ctx, depth, m), m, m.stack, |m.stack|)
    ensures |m.stack| > 0 ==> Spells(Exec(ctx, size, m), m, m.stack, |Top(m.stack, 1)|)
  {
    PushedNumber(m, m.stack, |m.stack|);
    if |m.stack| > 0 {
      PushedNumber(m, m.stack, |Top(m.stack, 1)|);
    }
    hide SetVch, GetVch, CastToBool, Spells, Decides;
  }
}
