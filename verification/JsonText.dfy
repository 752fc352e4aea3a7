/**
 From values to text and back: the writer (json_spirit_writer_template.h:96-250), the grammar
 (json_spirit_reader_template.h:436-518), and what comes of reading what was written. A text is
 a list of tokens; numbers and string literals are single tokens.
 */
module JsonText {
  import opened Bytes
  import opened JsonEscape
  import opened JsonTree
  import opened Wrappers

  datatype Token =
    | Mark(c: char)
    | Literal(text: Bytes)
    | Keyword(word: string)
    | Number(n: int)
    | Decimal(r: real)
    | Blank

  // ----- tokens of a value -----

  /** Integers are shown as signed or unsigned 64-bit numbers. */
  function Shown(bits: Word64, wide: bool): (n: int)
    ensures -TWO_63 <= n < TWO_64
  {
    if wide && bits < 0 then bits + TWO_64 else bits
  }

  /** 10 to the power 8. */
  const EIGHT_DIGITS := 100000000.0

  /** The nearest integer, and the even one of two that are equally near. */
  function Nearest(x: real): int
  {
    var below := x.Floor;
    var part := x - below as real;
    if part < 0.5 || (part == 0.5 && below % 2 == 0) then below else below + 1
  }

  /** Numbers that are nearest to one integer go there, and those halfway between two to the even one. */
  lemma NearestIs(n: int, x: real)
    ensures -0.5 < x - n as real < 0.5 ==> Nearest(x) == n
    ensures x == n as real + 0.5 ==> Nearest(x) == if n % 2 == 0 then n else n + 1
  {
  }

  /** Reals are written with a fixed precision of eight digits behind the point. */
  function Round8(r: real): real
  {
    Nearest(r * EIGHT_DIGITS) as real / EIGHT_DIGITS
  }

  /** Eight digits are enough to write the number. */
  predicate HasEightDigits(r: real)
  {
    (r * EIGHT_DIGITS).Floor as real == r * EIGHT_DIGITS
  }

  /** A real is written exactly if eight digits are enough, and otherwise loses at most half a unit of the eighth. */
  lemma Round8Exact(r: real)
    ensures Round8(r) == r <==> HasEightDigits(r)
    ensures -0.5 <= (Round8(r) - r) * EIGHT_DIGITS <= 0.5
    ensures HasEightDigits(Round8(r))
  {
    var x := r * EIGHT_DIGITS;
    assert Round8(r) * EIGHT_DIGITS == Nearest(x) as real;
    assert (Round8(r) - r) * EIGHT_DIGITS == Nearest(x) as real - x;
  }

  function ScalarToken(isPrint: Printable, x: Scalar): Token
  {
    match x
    case Null => Keyword("null")
    case Bool(b) => Keyword(if b then "true" else "false")
    case Int(bits, wide) => Number(Shown(bits, wide))
    case Real(r) => Decimal(Round8(r))
    case Str(s) => Literal(Quoted(isPrint, s))
  }

  /** The tokens of a value without white space. */
  function Tokens(isPrint: Printable, v: Value): (ts: seq<Token>)
    ensures ts != []
    decreases v
  {
    match v
    case Leaf(x) => [ScalarToken(isPrint, x)]
    case Arr(items) => [Mark('[')] + ItemTokens(isPrint, items) + [Mark(']')]
    case Obj(members) => [Mark('{')] + MemberTokens(isPrint, members) + [Mark('}')]
  }

  function ItemTokens(isPrint: Printable, items: seq<Value>): (ts: seq<Token>)
    decreases items
  {
    if items == [] then []
    else Tokens(isPrint, items[0]) + if |items| == 1 then [] else [Mark(',')] + ItemTokens(isPrint, items[1..])
  }

  function PairTokens(isPrint: Printable, m: Member): (ts: seq<Token>)
    decreases m, 1
  {
    [Literal(Quoted(isPrint, m.name)), Mark(':')] + Tokens(isPrint, m.value)
  }

  function MemberTokens(isPrint: Printable, members: seq<Member>): (ts: seq<Token>)
    decreases members
  {
    if members == [] then []
    else PairTokens(isPrint, members[0]) + if |members| == 1 then [] else [Mark(',')] + MemberTokens(isPrint, members[1..])
  }

  /** What the grammar sees: white space between tokens is skipped. */
  function Significant(ts: seq<Token>): (r: seq<Token>)
  {
    if ts == [] then []
    else if ts[0].Blank? then Significant(ts[1..])
    else [ts[0]] + Significant(ts[1..])
  }

  lemma {:induction false} SignificantConcat(a: seq<Token>, b: seq<Token>)
    ensures Significant(a + b) == Significant(a) + Significant(b)
  {
    if a == [] {
      assert a + b == b;
    } else {
      assert (a + b)[1..] == a[1..] + b;
      SignificantConcat(a[1..], b);
    }
  }

  lemma SignificantOne(t: Token)
    ensures Significant([t]) == if t.Blank? then [] else [t]
  {
    assert [t][1..] == [];
  }

  // ----- the writer -----

  /** `after` is `before` with the tokens `extra` written to it. White space does not count, but in compact mode there is none. */
  predicate Extends(pretty: bool, before: seq<Token>, after: seq<Token>, extra: seq<Token>)
  {
    && Significant(after) == Significant(before) + extra
    && (!pretty ==> after == before + extra)
  }

  lemma ExtendsTwice(pretty: bool, a: seq<Token>, b: seq<Token>, c: seq<Token>, x: seq<Token>, y: seq<Token>)
    requires Extends(pretty, a, b, x) && Extends(pretty, b, c, y)
    ensures Extends(pretty, a, c, x + y)
  {
    assert Significant(a) + x + y == Significant(a) + (x + y);
    assert a + x + y == a + (x + y);
  }

  lemma ItemsLeft(isPrint: Printable, items: seq<Value>, i: nat)
    requires i < |items|
    ensures ItemTokens(isPrint, items[i..])
         == Tokens(isPrint, items[i]) + (if i + 1 < |items| then [Mark(',')] else []) + ItemTokens(isPrint, items[i + 1..])
  {
    assert items[i..][0] == items[i] && items[i..][1..] == items[i + 1..];
  }

  lemma MembersLeft(isPrint: Printable, members: seq<Member>, i: nat)
    requires i < |members|
    ensures MemberTokens(isPrint, members[i..])
         == PairTokens(isPrint, members[i]) + (if i + 1 < |members| then [Mark(',')] else []) + MemberTokens(isPrint, members[i + 1..])
  {
    assert members[i..][0] == members[i] && members[i..][1..] == members[i + 1..];
  }

  /** Writes a value token by token, with line breaks and indentation if asked to. */
  class Generator {
    var os: seq<Token>
    var indentationLevel: nat
    const pretty: bool
    const isPrint: Printable

    constructor (pretty: bool, isPrint: Printable)
      ensures os == [] && indentationLevel == 0 && this.pretty == pretty && this.isPrint == isPrint
    {
      os, indentationLevel := [], 0;
      this.pretty, this.isPrint := pretty, isPrint;
    }

    method Emit(t: Token)
      requires !t.Blank?
      modifies this`os
      ensures forall a, x :: Extends(pretty, a, old(os), x) ==> Extends(pretty, a, os, x + [t])
    {
      SignificantConcat(os, [t]);
      SignificantOne(t);
      os := os + [t];
      forall a, x | Extends(pretty, a, old(os), x)
        ensures Extends(pretty, a, os, x + [t])
      {
        ExtendsTwice(pretty, a, old(os), os, x, [t]);
      }
    }

    /** White space of any kind: nothing in compact mode. */
    method Space()
      modifies this`os
      ensures forall a, x :: Extends(pretty, a, old(os), x) ==> Extends(pretty, a, os, x)
    {
      if pretty {
        SignificantConcat(os, [Blank]);
        SignificantOne(Blank);
        os := os + [Blank];
      }
    }

    method NewLine()
      modifies this`os
      ensures forall a, x :: Extends(pretty, a, old(os), x) ==> Extends(pretty, a, os, x)
    {
      Space();
    }

    method Indent()
      modifies this`os
      ensures forall a, x :: Extends(pretty, a, old(os), x) ==> Extends(pretty, a, os, x)
    {
      if !pretty {
        return;
      }
      for i := 0 to indentationLevel
        invariant forall a, x :: Extends(pretty, a, old(os), x) ==> Extends(pretty, a, os, x)
      {
        Space();
      }
    }

    method Output(v: Value)
      modifies this
      ensures Extends(pretty, old(os), os, Tokens(isPrint, v)) && indentationLevel == old(indentationLevel)
      decreases v, 2
    {
      hide Extends, Significant;
      match v
      case Leaf(x) =>
        Nothing(pretty, os);
        assert [] + [ScalarToken(isPrint, x)] == Tokens(isPrint, v);
        Emit(ScalarToken(isPrint, x));
      case Arr(items) => OutputArray(items);
      case Obj(members) => OutputObject(members);
    }

    method OutputArray(items: seq<Value>)
      modifies this
      ensures Extends(pretty, old(os), os, Tokens(isPrint, Arr(items))) && indentationLevel == old(indentationLevel)
      decreases items, 1
    {
      hide Extends, Significant, ItemTokens;
      ghost var start := os;
      Nothing(pretty, os);
      Emit(Mark('['));
      NewLine();
      ghost var done := [Mark('[')];
      assert [] + done == done;
      indentationLevel := indentationLevel + 1;
      var i := 0;
      assert items[0..] == items;
      while i < |items|
        invariant 0 <= i <= |items| && indentationLevel == old(indentationLevel) + 1
        invariant Extends(pretty, start, os, done)
        invariant done + ItemTokens(isPrint, items[i..]) == [Mark('[')] + ItemTokens(isPrint, items)
      {
        ghost var shown := OutputItem(items, i, start, done);
        ItemsLeft(isPrint, items, i);
        Regroup(done, shown, ItemTokens(isPrint, items[i + 1..]));
        done := done + shown;
        i := i + 1;
      }
      assert items[i..] == [];
      NoTokens(isPrint);
      assert done + [] == done;
      indentationLevel := indentationLevel - 1;
      Indent();
      Emit(Mark(']'));
    }

    /** One turn of the loop: indentation, the item, and a comma if another one follows. */
    method OutputItem(items: seq<Value>, i: nat, ghost start: seq<Token>, ghost done: seq<Token>) returns (ghost shown: seq<Token>)
      requires i < |items| && Extends(pretty, start, os, done)
      modifies this
      ensures shown == Tokens(isPrint, items[i]) + if i + 1 < |items| then [Mark(',')] else []
      ensures Extends(pretty, start, os, done + shown) && indentationLevel == old(indentationLevel)
      decreases items, 0
    {
      hide Extends, Significant, ItemTokens;
      shown := Tokens(isPrint, items[i]);
      Indent();
      ghost var mid := os;
      Output(items[i]);
      ExtendsTwice(pretty, start, mid, os, done, shown);
      if i + 1 < |items| {
        Emit(Mark(','));
        assert done + shown + [Mark(',')] == done + (shown + [Mark(',')]);
        shown := shown + [Mark(',')];
      }
      NewLine();
    }

    method OutputObject(members: seq<Member>)
      modifies this
      ensures Extends(pretty, old(os), os, Tokens(isPrint, Obj(members))) && indentationLevel == old(indentationLevel)
      decreases members, 1
    {
      hide Extends, Significant, MemberTokens;
      ghost var start := os;
      Nothing(pretty, os);
      Emit(Mark('{'));
      NewLine();
      ghost var done := [Mark('{')];
      assert [] + done == done;
      indentationLevel := indentationLevel + 1;
      var i := 0;
      assert members[0..] == members;
      while i < |members|
        invariant 0 <= i <= |members| && indentationLevel == old(indentationLevel) + 1
        invariant Extends(pretty, start, os, done)
        invariant done + MemberTokens(isPrint, members[i..]) == [Mark('{')] + MemberTokens(isPrint, members)
      {
        ghost var shown := OutputMember(members, i, start, done);
        MembersLeft(isPrint, members, i);
        Regroup(done, shown, MemberTokens(isPrint, members[i + 1..]));
        done := done + shown;
        i := i + 1;
      }
      assert members[i..] == [];
      NoTokens(isPrint);
      assert done + [] == done;
      indentationLevel := indentationLevel - 1;
      Indent();
      Emit(Mark('}'));
    }

    /** One turn of the loop: indentation, the member, and a comma if another one follows. */
    method OutputMember(members: seq<Member>, i: nat, ghost start: seq<Token>, ghost done: seq<Token>) returns (ghost shown: seq<Token>)
      requires i < |members| && Extends(pretty, start, os, done)
      modifies this
      ensures shown == PairTokens(isPrint, members[i]) + if i + 1 < |members| then [Mark(',')] else []
      ensures Extends(pretty, start, os, done + shown) && indentationLevel == old(indentationLevel)
      decreases members, 0
    {
      hide Extends, Significant, MemberTokens;
      shown := PairTokens(isPrint, members[i]);
      Indent();
      ghost var mid := os;
      OutputPair(members[i]);
      ExtendsTwice(pretty, start, mid, os, done, shown);
      if i + 1 < |members| {
        Emit(Mark(','));
        assert done + shown + [Mark(',')] == done + (shown + [Mark(',')]);
        shown := shown + [Mark(',')];
      }
      NewLine();
    }

    method OutputPair(m: Member)
      modifies this
      ensures Extends(pretty, old(os), os, PairTokens(isPrint, m)) && indentationLevel == old(indentationLevel)
      decreases m, 3
    {
      hide Extends, Significant;
      ghost var start := os;
      Nothing(pretty, os);
      var name := Literal(Quoted(isPrint, m.name));
      Emit(name);
      Space();
      Emit(Mark(':'));
      Space();
      ghost var mid := os;
      Output(m.value);
      ExtendsTwice(pretty, start, mid, os, [] + [name] + [Mark(':')], Tokens(isPrint, m.value));
      assert [] + [name] + [Mark(':')] == [name, Mark(':')];
    }
  }

  lemma Regroup(a: seq<Token>, b: seq<Token>, c: seq<Token>)
    ensures a + (b + c) == a + b + c
  {
  }

  lemma Nothing(pretty: bool, os: seq<Token>)
    ensures Extends(pretty, os, os, [])
  {
  }

  lemma NoTokens(isPrint: Printable)
    ensures ItemTokens(isPrint, []) == [] && MemberTokens(isPrint, []) == []
  {
  }

  /** `write_stream`. */
  method WriteValue(isPrint: Printable, v: Value, pretty: bool) returns (text: seq<Token>)
    ensures Significant(text) == Tokens(isPrint, v)
    ensures !pretty ==> text == Tokens(isPrint, v)
  {
    var g := new Generator(pretty, isPrint);
    g.Output(v);
    text := g.os;
  }

  // ----- the grammar -----

  /** How `strict_real_p` turns a decimal number into a double. */
  type Rounding = real -> real

  /** The callbacks that reading fires, and the tokens left over. */
  type Reading = Option<(seq<Event>, seq<Token>)>

  /** `int64_p`, or `uint64_p` where that overflows. */
  function NumberEvent(n: int): Option<Event>
  {
    if -TWO_63 <= n < TWO_63 then Some(NewOther(Int(n, false)))
    else if 0 <= n < TWO_64 then Some(NewOther(Int(n - TWO_64, true)))
    else None
  }

  function ScalarReading(near: Rounding, t: Token): Option<Event>
  {
    match t
    case Literal(text) => Some(NewStr(text))
    case Number(n) => NumberEvent(n)
    case Decimal(r) => Some(NewOther(Real(near(r))))
    case Keyword(w) =>
      if w == "true" then Some(NewOther(Bool(true)))
      else if w == "false" then Some(NewOther(Bool(false)))
      else if w == "null" then Some(NewOther(Null))
      else None
    case _ => None
  }

  function ReadValue(near: Rounding, ts: seq<Token>): (r: Reading)
    ensures r.Some? ==> |r.value.1| < |ts|
    decreases |ts|, 1
  {
    if ts == [] then None
    else if ts[0] == Mark('{') then
      if |ts| > 1 && ts[1] == Mark('}') then Some(([BeginObj, EndObj], ts[2..]))
      else Closed(BeginObj, ReadMembers(near, ts[1..]), '}', EndObj)
    else if ts[0] == Mark('[') then
      if |ts| > 1 && ts[1] == Mark(']') then Some(([BeginArr, EndArr], ts[2..]))
      else Closed(BeginArr, ReadElements(near, ts[1..]), ']', EndArr)
    else
      match ScalarReading(near, ts[0])
      case None => None
      case Some(e) => Some(([e], ts[1..]))
  }

  /** A compound after its contents: the closing mark has to follow. */
  function Closed(open: Event, contents: Reading, mark: char, close: Event): (r: Reading)
    ensures r.Some? ==> contents.Some? && |r.value.1| < |contents.value.1|
  {
    match contents
    case None => None
    case Some((es, ts)) => if ts != [] && ts[0] == Mark(mark) then Some(([open] + es + [close], ts[1..])) else None
  }

  function ReadElements(near: Rounding, ts: seq<Token>): (r: Reading)
    ensures r.Some? ==> |r.value.1| < |ts|
    decreases |ts|, 2
  {
    match ReadValue(near, ts)
    case None => None
    case Some((es, rest)) =>
      if rest != [] && rest[0] == Mark(',') then
        match ReadElements(near, rest[1..])
        case None => None
        case Some((more, left)) => Some((es + more, left))
      else Some((es, rest))
  }

  function ReadPair(near: Rounding, ts: seq<Token>): (r: Reading)
    ensures r.Some? ==> |r.value.1| < |ts|
    decreases |ts|, 2
  {
    if |ts| < 2 || !ts[0].Literal? || ts[1] != Mark(':') then None
    else
      match ReadValue(near, ts[2..])
      case None => None
      case Some((es, rest)) => Some(([NewName(ts[0].text)] + es, rest))
  }

  function ReadMembers(near: Rounding, ts: seq<Token>): (r: Reading)
    ensures r.Some? ==> |r.value.1| < |ts|
    decreases |ts|, 3
  {
    match ReadPair(near, ts)
    case None => None
    case Some((es, rest)) =>
      if rest != [] && rest[0] == Mark(',') then
        match ReadMembers(near, rest[1..])
        case None => None
        case Some((more, left)) => Some((es + more, left))
      else Some((es, rest))
  }

  // ----- reading what was written -----

  function PlainScalar(near: Rounding, x: Scalar): Scalar
  {
    match x
    case Int(bits, wide) => Int(bits, wide && bits < 0)
    case Real(r) => Real(near(Round8(r)))
    case _ => x
  }

  /** The value that comes back: reals rounded, and the flag gone from integers that need not be unsigned. */
  function Plain(near: Rounding, v: Value): (w: Value)
    decreases v
  {
    match v
    case Leaf(x) => Leaf(PlainScalar(near, x))
    case Arr(items) => Arr(PlainItems(near, items))
    case Obj(members) => Obj(PlainMembers(near, members))
  }

  function PlainItems(near: Rounding, items: seq<Value>): (r: seq<Value>)
    ensures |r| == |items| && forall i :: 0 <= i < |items| ==> r[i] == Plain(near, items[i])
    decreases items
  {
    if items == [] then [] else [Plain(near, items[0])] + PlainItems(near, items[1..])
  }

  function PlainMembers(near: Rounding, members: seq<Member>): (r: seq<Member>)
    ensures |r| == |members|
    ensures forall i :: 0 <= i < |members| ==> r[i] == Member(members[i].name, Plain(near, members[i].value))
    decreases members
  {
    if members == [] then []
    else [Member(members[0].name, Plain(near, members[0].value))] + PlainMembers(near, members[1..])
  }

  /** `operator==` of the source: the flag is not compared. */
  predicate Same(v: Value, w: Value)
    decreases v
  {
    match (v, w)
    case (Leaf(x), Leaf(y)) => if x.Int? && y.Int? then x.bits == y.bits else x == y
    case (Arr(xs), Arr(ys)) => |xs| == |ys| && forall i :: 0 <= i < |xs| ==> Same(xs[i], ys[i])
    case (Obj(xs), Obj(ys)) =>
      |xs| == |ys| && forall i :: 0 <= i < |xs| ==> xs[i].name == ys[i].name && Same(xs[i].value, ys[i].value)
    case _ => false
  }

  /** Every real in a value is the number its eight digits are read as. */
  predicate Exact(near: Rounding, v: Value)
    decreases v
  {
    match v
    case Leaf(x) => x.Real? ==> near(Round8(x.r)) == x.r
    case Arr(items) => forall i :: 0 <= i < |items| ==> Exact(near, items[i])
    case Obj(members) => forall i :: 0 <= i < |members| ==> Exact(near, members[i].value)
  }

  /** What comes back equals what was there exactly if its reals come back. */
  lemma {:induction false} SameIffExact(near: Rounding, v: Value)
    ensures Same(v, Plain(near, v)) <==> Exact(near, v)
    decreases v
  {
    hide Round8;
    match v
    case Leaf(x) =>
    case Arr(items) =>
      forall i | 0 <= i < |items|
        ensures Same(items[i], Plain(near, items[i])) <==> Exact(near, items[i])
      {
        SameIffExact(near, items[i]);
      }
    case Obj(members) =>
      forall i | 0 <= i < |members|
        ensures Same(members[i].value, Plain(near, members[i].value)) <==> Exact(near, members[i].value)
      {
        SameIffExact(near, members[i].value);
      }
  }

  /** The reader picks a double that is as near to the decimal number as any. */
  ghost predicate ToNearest(near: Rounding, isDouble: real -> bool)
  {
    forall x :: isDouble(near(x)) && forall d :: isDouble(d) ==> Distance(near(x), x) <= Distance(d, x)
  }

  function Distance(x: real, y: real): (d: real)
    ensures d >= 0.0 && (d == 0.0 <==> x == y)
  {
    if x < y then y - x else x - y
  }

  /**
   With such a reader a double comes back if eight digits are enough for it, or if all other
   doubles are farther than one unit of the eighth digit from it; and only if none is nearer to its
   eight digits than it is itself.
   */
  lemma DoublesComeBack(near: Rounding, isDouble: real -> bool, r: real)
    requires ToNearest(near, isDouble) && isDouble(r)
    ensures HasEightDigits(r) ==> near(Round8(r)) == r
    ensures (forall d :: isDouble(d) && d != r ==> Distance(d, r) * EIGHT_DIGITS > 1.0) ==> near(Round8(r)) == r
    ensures near(Round8(r)) == r ==> forall d :: isDouble(d) ==> Distance(r, Round8(r)) <= Distance(d, Round8(r))
  {
    hide Round8;
    Round8Exact(r);
    var x := Round8(r);
    var d := near(x);
    assert Distance(d, x) <= Distance(r, x);
    if d != r {
      assert Distance(d, r) <= Distance(d, x) + Distance(r, x);
      assert Distance(r, x) * EIGHT_DIGITS <= 0.5;
      assert Distance(d, r) * EIGHT_DIGITS <= 1.0;
    }
  }

  /** The smallest amounts are lost: 0.000000001 is written 0.00000000. */
  lemma TinyRealIsLost(near: Rounding)
    requires near(0.0) == 0.0
    ensures Plain(near, Leaf(Real(0.000000001))) == Leaf(Real(0.0))
    ensures !Same(Leaf(Real(0.000000001)), Plain(near, Leaf(Real(0.000000001))))
  {
    assert 0.000000001 * EIGHT_DIGITS == 0.1;
    assert (0.1).Floor == 0;
  }

  lemma FirstToken(isPrint: Printable, v: Value)
    ensures Tokens(isPrint, v)[0] != Mark(']') && Tokens(isPrint, v)[0] != Mark('}')
  {
  }

  lemma ReadLeaf(near: Rounding, isPrint: Printable, x: Scalar, rest: seq<Token>)
    ensures ReadValue(near, Tokens(isPrint, Leaf(x)) + rest) == Some((Events(isPrint, Plain(near, Leaf(x))), rest))
  {
    hide Quoted, Round8;
    assert (Tokens(isPrint, Leaf(x)) + rest)[1..] == rest;
  }

  lemma ReadEmpty(near: Rounding, isPrint: Printable, rest: seq<Token>)
    ensures ReadValue(near, Tokens(isPrint, Arr([])) + rest) == Some((Events(isPrint, Plain(near, Arr([]))), rest))
    ensures ReadValue(near, Tokens(isPrint, Obj([])) + rest) == Some((Events(isPrint, Plain(near, Obj([]))), rest))
  {
    hide Quoted, ReadElements, ReadMembers;
    assert Tokens(isPrint, Arr([])) == [Mark('['), Mark(']')] && Tokens(isPrint, Obj([])) == [Mark('{'), Mark('}')];
    assert ([Mark('['), Mark(']')] + rest)[2..] == rest && ([Mark('{'), Mark('}')] + rest)[2..] == rest;
    assert Events(isPrint, Arr([])) == [BeginArr, EndArr] && Events(isPrint, Obj([])) == [BeginObj, EndObj];
  }

  /** Reading the tokens of a value fires the callbacks of its plain form and stops right behind them. */
  lemma {:induction false} ReadTokens(near: Rounding, isPrint: Printable, v: Value, rest: seq<Token>)
    ensures ReadValue(near, Tokens(isPrint, v) + rest) == Some((Events(isPrint, Plain(near, v)), rest))
    decreases v, 2
  {
    hide Quoted, ReadElements, ReadMembers, Round8;
    var ts := Tokens(isPrint, v) + rest;
    match v
    case Leaf(x) => ReadLeaf(near, isPrint, x, rest);
    case Arr(items) =>
      if items == [] {
        ReadEmpty(near, isPrint, rest);
      } else {
        var tail := [Mark(']')] + rest;
        assert ts[1..] == ItemTokens(isPrint, items) + tail;
        FirstToken(isPrint, items[0]);
        assert ts[1] == Tokens(isPrint, items[0])[0];
        ReadItemTokens(near, isPrint, items, tail);
        assert tail[1..] == rest;
      }
    case Obj(members) =>
      if members == [] {
        ReadEmpty(near, isPrint, rest);
      } else {
        var tail := [Mark('}')] + rest;
        assert ts[1..] == MemberTokens(isPrint, members) + tail;
        assert ts[1] == PairTokens(isPrint, members[0])[0];
        ReadMemberTokens(near, isPrint, members, tail);
        assert tail[1..] == rest;
      }
  }

  lemma {:induction false} ReadItemTokens(near: Rounding, isPrint: Printable, items: seq<Value>, rest: seq<Token>)
    requires items != [] && rest != [] && rest[0] != Mark(',')
    ensures ReadElements(near, ItemTokens(isPrint, items) + rest) == Some((ItemEvents(isPrint, PlainItems(near, items)), rest))
    decreases items, 1
  {
    hide ReadValue, Tokens, Events, Plain;
    var v, plain := items[0], PlainItems(near, items);
    assert plain[1..] == PlainItems(near, items[1..]);
    if |items| == 1 {
      assert ItemTokens(isPrint, items) + rest == Tokens(isPrint, v) + rest;
      ReadTokens(near, isPrint, v, rest);
      assert ItemEvents(isPrint, plain[1..]) == [];
      assert Events(isPrint, Plain(near, v)) + [] == Events(isPrint, Plain(near, v));
    } else {
      var more := ItemTokens(isPrint, items[1..]) + rest;
      assert ItemTokens(isPrint, items) + rest == Tokens(isPrint, v) + ([Mark(',')] + more);
      ReadTokens(near, isPrint, v, [Mark(',')] + more);
      ReadItemTokens(near, isPrint, items[1..], rest);
      assert ([Mark(',')] + more)[1..] == more;
    }
  }

  lemma {:induction false} ReadPairTokens(near: Rounding, isPrint: Printable, m: Member, rest: seq<Token>)
    ensures ReadPair(near, PairTokens(isPrint, m) + rest)
         == Some(([NewName(Quoted(isPrint, m.name))] + Events(isPrint, Plain(near, m.value)), rest))
    decreases m, 3
  {
    hide ReadValue, Tokens, Events, Plain, Quoted;
    var ts := PairTokens(isPrint, m) + rest;
    assert ts[2..] == Tokens(isPrint, m.value) + rest;
    ReadTokens(near, isPrint, m.value, rest);
  }

  lemma {:induction false} ReadMemberTokens(near: Rounding, isPrint: Printable, members: seq<Member>, rest: seq<Token>)
    requires members != [] && rest != [] && rest[0] != Mark(',')
    ensures ReadMembers(near, MemberTokens(isPrint, members) + rest) == Some((MemberEvents(isPrint, PlainMembers(near, members)), rest))
    decreases members, 1
  {
    hide ReadPair, PairTokens, Events, Plain, Quoted;
    var m, plain := members[0], PlainMembers(near, members);
    assert plain[1..] == PlainMembers(near, members[1..]);
    var es := [NewName(Quoted(isPrint, m.name))] + Events(isPrint, Plain(near, m.value));
    if |members| == 1 {
      assert MemberTokens(isPrint, members) + rest == PairTokens(isPrint, m) + rest;
      ReadPairTokens(near, isPrint, m, rest);
      assert MemberEvents(isPrint, plain[1..]) == [];
      assert es + [] == es;
    } else {
      var more := MemberTokens(isPrint, members[1..]) + rest;
      assert MemberTokens(isPrint, members) + rest == PairTokens(isPrint, m) + ([Mark(',')] + more);
      ReadPairTokens(near, isPrint, m, [Mark(',')] + more);
      ReadMemberTokens(near, isPrint, members[1..], rest);
      assert ([Mark(',')] + more)[1..] == more;
    }
  }

  /** What reading a text gives. */
  function Read(near: Rounding, text: seq<Token>, before: Value): (v: Option<Value>)
  {
    match ReadValue(near, Significant(text))
    case None => None
    case Some((es, _)) => match Run(Fresh(before), es) case None => None case Some(s) => Some(s.value)
  }

  /**
   Writing a value, pretty or not, and reading the text gives the value with its reals rounded to
   eight digits and from there to doubles, with the callbacks' assertions all holding; so it gives an
   equal value exactly if every real in it is the double its eight digits are read as.
   */
  lemma ReadWritten(near: Rounding, isPrint: Printable, v: Value, text: seq<Token>, before: Value)
    requires Significant(text) == Tokens(isPrint, v)
    ensures Read(near, text, before) == Some(Plain(near, v)) && (Same(v, Plain(near, v)) <==> Exact(near, v))
  {
    hide ReadValue, Run, Tokens, Round8;
    ReadTokens(near, isPrint, v, []);
    assert Tokens(isPrint, v) + [] == Tokens(isPrint, v);
    EventsRebuild(isPrint, Plain(near, v), before);
    SameIffExact(near, v);
  }

  /** `read_range`: the grammar with its callbacks. */
  method ReadText(near: Rounding, text: seq<Token>, before: Value) returns (v: Option<Value>)
    ensures v == Read(near, text, before)
  {
    hide ReadValue;
    var r := ReadValue(near, Significant(text));
    if r.None? {
      return None;
    }
    var events := r.value.0;
    var actions := new SemanticActions(before);
    for i := 0 to |events|
      invariant Run(Fresh(before), events) == Run(actions.Now(), events[i..])
    {
      assert events[i..][0] == events[i] && events[i..][1..] == events[i + 1..];
      if Step(State(actions.value, actions.current, actions.stack, actions.name), events[i]).None? {
        return None;
      }
      actions.Handle(events[i]);
    }
    v := Some(actions.value);
  }
}
