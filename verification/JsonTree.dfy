/**
 Building a JSON value from parser callbacks (json_spirit_reader_template.h:186-353), and the
 writer whose output brings those callbacks about (json_spirit_writer_template.h:96-250).
 Text is taken as tokens; string literals keep their characters.
 */
module JsonTree {
  import opened Bytes
  import opened JsonEscape
  import opened Wrappers

  const TWO_63 := 0x8000_0000_0000_0000
  const TWO_64 := 0x1_0000_0000_0000_0000

  type Word64 = x: int | -TWO_63 <= x < TWO_63

  /** `wide` is the source's `is_uint64_`: the bits are to be shown unsigned. Equality of the source ignores it. */
  datatype Scalar = Null | Bool(b: bool) | Int(bits: Word64, wide: bool) | Real(r: real) | Str(s: Bytes)

  datatype Value = Leaf(scalar: Scalar) | Arr(items: seq<Value>) | Obj(members: seq<Member>)
  datatype Member = Member(name: Bytes, value: Value)

  // ----- places in a tree -----

  /** A pointer into the tree, as the way from the root. */
  type Path = seq<nat>

  function Kids(v: Value): (n: nat)
  {
    match v case Leaf(_) => 0 case Arr(items) => |items| case Obj(members) => |members|
  }

  function Kid(v: Value, i: nat): (k: Value)
    requires i < Kids(v)
    ensures k < v
  {
    match v case Arr(items) => items[i] case Obj(members) => members[i].value
  }

  function WithKid(v: Value, i: nat, x: Value): (w: Value)
    requires i < Kids(v)
    ensures Kids(w) == Kids(v) && Kid(w, i) == x
  {
    match v
    case Arr(items) => Arr(items[i := x])
    case Obj(members) => Obj(members[i := members[i].(value := x)])
  }

  function At(v: Value, p: Path): (r: Option<Value>)
    decreases |p|
  {
    if p == [] then Some(v)
    else if p[0] < Kids(v) then At(Kid(v, p[0]), p[1..])
    else None
  }

  function Put(v: Value, p: Path, x: Value): (w: Value)
    requires At(v, p).Some?
    decreases |p|
  {
    if p == [] then x else WithKid(v, p[0], Put(Kid(v, p[0]), p[1..], x))
  }

  lemma {:induction false} AtPut(v: Value, p: Path, x: Value)
    requires At(v, p).Some?
    ensures At(Put(v, p, x), p) == Some(x)
    decreases |p|
  {
    if p != [] {
      AtPut(Kid(v, p[0]), p[1..], x);
    }
  }

  lemma {:induction false} PutPut(v: Value, p: Path, x: Value, y: Value)
    requires At(v, p).Some?
    ensures At(Put(v, p, x), p).Some? && Put(Put(v, p, x), p, y) == Put(v, p, y)
    decreases |p|
  {
    AtPut(v, p, x);
    if p != [] {
      var k := Kid(v, p[0]);
      PutPut(k, p[1..], x, y);
      WithKidTwice(v, p[0], Put(k, p[1..], x), Put(k, p[1..], y));
    }
  }

  lemma WithKidTwice(v: Value, i: nat, x: Value, y: Value)
    requires i < Kids(v)
    ensures WithKid(WithKid(v, i, x), i, y) == WithKid(v, i, y)
  {
  }

  /** A place below a place. */
  lemma {:induction false} Below(v: Value, p: Path, i: nat, x: Value)
    requires At(v, p).Some? && i < Kids(At(v, p).value)
    ensures At(v, p + [i]) == Some(Kid(At(v, p).value, i))
    ensures Put(v, p + [i], x) == Put(v, p, WithKid(At(v, p).value, i, x))
    decreases |p|
  {
    var q := p + [i];
    if p == [] {
      assert q[0] == i && q[1..] == [];
    } else {
      assert q[0] == p[0] && q[1..] == p[1..] + [i];
      Below(Kid(v, p[0]), p[1..], i, x);
    }
  }

  // ----- the callbacks -----

  /** `current` is null before the first value; `stack` holds the compounds around the current one. */
  datatype State = State(value: Value, current: Option<Path>, stack: seq<Path>, name: Bytes)

  datatype Event =
    | BeginObj | EndObj | BeginArr | EndArr
    | NewName(literal: Bytes) | NewStr(literal: Bytes) | NewOther(scalar: Scalar)

  predicate IsCompound(v: Value) { !v.Leaf? }

  /** Append to an array, or to an object under a name. */
  function Extend(c: Value, name: Bytes, x: Value): (d: Value)
    requires IsCompound(c)
    ensures IsCompound(d) && Kids(d) == Kids(c) + 1 && Kid(d, Kids(c)) == x
  {
    match c
    case Arr(items) => Arr(items + [x])
    case Obj(members) => Obj(members + [Member(name, x)])
  }

  /** `add_to_current`: also tells where the new value is. Nothing if an assertion of the source fails. */
  function Add(s: State, x: Value): (r: Option<(State, Path)>)
  {
    match s.current
    case None => Some((s.(value := x, current := Some([])), []))
    case Some(p) =>
      match At(s.value, p)
      case None => None
      case Some(c) =>
        if !IsCompound(c) then None
        else Some((s.(value := Put(s.value, p, Extend(c, s.name, x))), p + [Kids(c)]))
  }

  function Begin(s: State, empty: Value): (r: Option<State>)
  {
    match Add(s, empty)
    case None => None
    case Some((s1, q)) => Some(s1.(current := Some(q), stack := if s.current.Some? then s.stack + [s.current.value] else s.stack))
  }

  function End(s: State): (r: Option<State>)
  {
    if s.current == Some([]) then Some(s)
    else if s.stack == [] then None
    else Some(s.(current := Some(s.stack[|s.stack| - 1]), stack := s.stack[..|s.stack| - 1]))
  }

  function AddScalar(s: State, x: Scalar): (r: Option<State>)
  {
    match Add(s, Leaf(x)) case None => None case Some((s1, _)) => Some(s1)
  }

  function Step(s: State, e: Event): (r: Option<State>)
  {
    match e
    case BeginObj => Begin(s, Obj([]))
    case BeginArr => Begin(s, Arr([]))
    case EndObj => End(s)
    case EndArr => End(s)
    case NewName(lit) =>
      if s.current.Some? && At(s.value, s.current.value).Some? && At(s.value, s.current.value).value.Obj? && |lit| >= 2
      then Some(s.(name := GetStr(lit))) else None
    case NewStr(lit) =>
      if |lit| < 2 then None
      else AddScalar(s, Str(GetStr(lit)))
    case NewOther(x) => AddScalar(s, x)
  }

  function Run(s: State, es: seq<Event>): (r: Option<State>)
    decreases |es|
  {
    if es == [] then Some(s)
    else match Step(s, es[0]) case None => None case Some(s1) => Run(s1, es[1..])
  }

  /** The state the source's constructor starts from; the value given to it is overwritten. */
  function Fresh(v: Value): State
  {
    State(v, None, [], [])
  }

  /** The class whose methods the parser calls. Its pointers are paths here. */
  class SemanticActions {
    var value: Value
    var current: Option<Path>
    var stack: seq<Path>
    var name: Bytes

    ghost function Now(): State
      reads this
    {
      State(value, current, stack, name)
    }

    constructor (v: Value)
      ensures Now() == Fresh(v)
    {
      value, current, stack, name := v, None, [], [];
    }

    method AddToCurrent(x: Value) returns (q: Path)
      requires Add(Now(), x).Some?
      modifies this
      ensures Some((Now(), q)) == Add(old(Now()), x)
    {
      if current.None? {
        value := x;
        current := Some([]);
        return [];
      }
      var c := At(value, current.value).value;
      value := Put(value, current.value, Extend(c, name, x));
      return current.value + [Kids(c)];
    }

    method BeginCompound(empty: Value)
      requires Begin(Now(), empty).Some?
      modifies this
      ensures Some(Now()) == Begin(old(Now()), empty)
    {
      if current.None? {
        value := empty;
        current := Some([]);
      } else {
        var parent := current.value;
        var q := AddToCurrent(empty);
        stack := stack + [parent];
        current := Some(q);
      }
    }

    method EndCompound()
      requires End(Now()).Some?
      modifies this
      ensures Some(Now()) == End(old(Now()))
    {
      if current != Some([]) {
        current := Some(stack[|stack| - 1]);
        stack := stack[..|stack| - 1];
      }
    }

    /** The callback for one event; what the source asserts is required. */
    method Handle(e: Event)
      requires Step(Now(), e).Some?
      modifies this
      ensures Some(Now()) == Step(old(Now()), e)
    {
      match e
      case BeginObj => BeginCompound(Obj([]));
      case BeginArr => BeginCompound(Arr([]));
      case EndObj => EndCompound();
      case EndArr => EndCompound();
      case NewName(lit) => name := GetStr(lit);
      case NewStr(lit) => var q := AddToCurrent(Leaf(Str(GetStr(lit))));
      case NewOther(x) => var q := AddToCurrent(Leaf(x));
    }
  }

  // ----- events of a value -----

  function ScalarEvent(isPrint: Printable, x: Scalar): Event
  {
    if x.Str? then NewStr(Quoted(isPrint, x.s)) else NewOther(x)
  }

  /** The callbacks for a value, in the order the writer goes through it. */
  function Events(isPrint: Printable, v: Value): (es: seq<Event>)
    ensures es != []
    decreases v
  {
    match v
    case Leaf(x) => [ScalarEvent(isPrint, x)]
    case Arr(items) => [BeginArr] + ItemEvents(isPrint, items) + [EndArr]
    case Obj(members) => [BeginObj] + MemberEvents(isPrint, members) + [EndObj]
  }

  function ItemEvents(isPrint: Printable, items: seq<Value>): (es: seq<Event>)
    decreases items
  {
    if items == [] then [] else Events(isPrint, items[0]) + ItemEvents(isPrint, items[1..])
  }

  function MemberEvents(isPrint: Printable, members: seq<Member>): (es: seq<Event>)
    decreases members
  {
    if members == [] then []
    else [NewName(Quoted(isPrint, members[0].name))] + Events(isPrint, members[0].value) + MemberEvents(isPrint, members[1..])
  }

  /** The name last set when `v` has been gone through. */
  function LastName(v: Value, n: Bytes): Bytes
    decreases v
  {
    match v
    case Leaf(_) => n
    case Arr(items) => LastItemName(items, n)
    case Obj(members) => LastMemberName(members, n)
  }

  function LastItemName(items: seq<Value>, n: Bytes): Bytes
    decreases items
  {
    if items == [] then n else LastItemName(items[1..], LastName(items[0], n))
  }

  function LastMemberName(members: seq<Member>, n: Bytes): Bytes
    decreases members
  {
    if members == [] then n else LastMemberName(members[1..], LastName(members[0].value, members[0].name))
  }

  // ----- rebuilding -----

  lemma RunCons(s: State, e: Event, es: seq<Event>)
    ensures Run(s, [e] + es) == match Step(s, e) case None => None case Some(s1) => Run(s1, es)
  {
    assert ([e] + es)[1..] == es;
  }

  predicate InCompound(s: State)
  {
    s.current.Some? && At(s.value, s.current.value).Some? && IsCompound(At(s.value, s.current.value).value)
  }

  /** The compound the current pointer points to. */
  function Here(s: State): Value
    requires InCompound(s)
  {
    At(s.value, s.current.value).value
  }

  /** The same state with another compound in the current place, and another name noted. */
  function With(s: State, c: Value, n: Bytes): State
    requires InCompound(s)
  {
    s.(value := Put(s.value, s.current.value, c), name := n)
  }

  lemma WithWith(s: State, c: Value, n: Bytes, d: Value, m: Bytes)
    requires InCompound(s) && IsCompound(c)
    ensures InCompound(With(s, c, n)) && Here(With(s, c, n)) == c && With(s, c, n).name == n
    ensures With(With(s, c, n), d, m) == With(s, d, m)
  {
    AtPut(s.value, s.current.value, c);
    PutPut(s.value, s.current.value, c, d);
  }

  /** Entering a new child. */
  function Entered(s: State, empty: Value): State
    requires InCompound(s)
  {
    var p := s.current.value;
    State(Put(s.value, p, Extend(Here(s), s.name, empty)), Some(p + [Kids(Here(s))]), s.stack + [p], s.name)
  }

  lemma EnteredIsBegin(s: State, empty: Value)
    requires InCompound(s) && IsCompound(empty)
    ensures Begin(s, empty) == Some(Entered(s, empty))
    ensures InCompound(Entered(s, empty)) && Here(Entered(s, empty)) == empty
  {
    var p, d := s.current.value, Extend(Here(s), s.name, empty);
    AtPut(s.value, p, d);
    Below(Put(s.value, p, d), p, Kids(Here(s)), empty);
  }

  /** Leaving a child after filling it: it has been appended to its parent as it is now. */
  lemma LeaveChild(s: State, empty: Value, full: Value, n: Bytes)
    requires InCompound(s) && IsCompound(empty)
    ensures InCompound(Entered(s, empty))
    ensures End(With(Entered(s, empty), full, n)) == Some(With(s, Extend(Here(s), s.name, full), n))
  {
    EnteredIsBegin(s, empty);
    var p, k := s.current.value, Kids(Here(s));
    var d := Extend(Here(s), s.name, empty);
    AtPut(s.value, p, d);
    Below(Put(s.value, p, d), p, k, full);
    PutPut(s.value, p, d, WithKid(d, k, full));
    assert WithKid(d, k, full) == Extend(Here(s), s.name, full);
    assert (s.stack + [p])[..|s.stack|] == s.stack;
  }

  /** Feeding the events of a value inside a compound appends the value to it and comes back to it. */
  lemma {:induction false} FeedValue(isPrint: Printable, s: State, v: Value, tail: seq<Event>)
    requires InCompound(s)
    ensures Run(s, Events(isPrint, v) + tail) == Run(With(s, Extend(Here(s), s.name, v), LastName(v, s.name)), tail)
    decreases v, 2
  {
    hide Run, Begin, End, Put, At;
    match v
    case Leaf(x) =>
      RunCons(s, ScalarEvent(isPrint, x), tail);
      if x.Str? {
        GetStrQuoted(isPrint, x.s);
      }
    case Arr(items) =>
      var empty := Arr([]);
      EnteredIsBegin(s, empty);
      var body := ItemEvents(isPrint, items);
      assert Events(isPrint, v) + tail == [BeginArr] + (body + ([EndArr] + tail));
      RunCons(s, BeginArr, body + ([EndArr] + tail));
      FeedItems(isPrint, Entered(s, empty), items, [EndArr] + tail);
      assert [] + items == items;
      LeaveChild(s, empty, v, LastName(v, s.name));
      RunCons(With(Entered(s, empty), v, LastName(v, s.name)), EndArr, tail);
    case Obj(members) =>
      var empty := Obj([]);
      EnteredIsBegin(s, empty);
      var body := MemberEvents(isPrint, members);
      assert Events(isPrint, v) + tail == [BeginObj] + (body + ([EndObj] + tail));
      RunCons(s, BeginObj, body + ([EndObj] + tail));
      FeedMembers(isPrint, Entered(s, empty), members, [EndObj] + tail);
      assert [] + members == members;
      LeaveChild(s, empty, v, LastName(v, s.name));
      RunCons(With(Entered(s, empty), v, LastName(v, s.name)), EndObj, tail);
  }

  lemma {:induction false} FeedItems(isPrint: Printable, s: State, items: seq<Value>, tail: seq<Event>)
    requires InCompound(s) && Here(s).Arr?
    ensures Run(s, ItemEvents(isPrint, items) + tail)
         == Run(With(s, Arr(Here(s).items + items), LastItemName(items, s.name)), tail)
    decreases items, 1
  {
    hide Run, Put, At, With, Events, LastName;
    if items == [] {
      SameAgain(s);
      assert Here(s).items + items == Here(s).items;
      assert ItemEvents(isPrint, items) + tail == tail;
    } else {
      var v, rest := items[0], ItemEvents(isPrint, items[1..]) + tail;
      assert ItemEvents(isPrint, items) + tail == Events(isPrint, v) + rest;
      FeedValue(isPrint, s, v, rest);
      var c, n := Extend(Here(s), s.name, v), LastName(v, s.name);
      var all, m := Arr(Here(s).items + items), LastItemName(items, s.name);
      WithWith(s, c, n, all, m);
      FeedItems(isPrint, With(s, c, n), items[1..], tail);
      assert Here(s).items + [v] + items[1..] == Here(s).items + items;
    }
  }

  lemma {:induction false} FeedMembers(isPrint: Printable, s: State, members: seq<Member>, tail: seq<Event>)
    requires InCompound(s) && Here(s).Obj?
    ensures Run(s, MemberEvents(isPrint, members) + tail)
         == Run(With(s, Obj(Here(s).members + members), LastMemberName(members, s.name)), tail)
    decreases members, 1
  {
    hide Run, Put, At;
    if members == [] {
      SameAgain(s);
      assert Here(s).members + members == Here(s).members;
      assert MemberEvents(isPrint, members) + tail == tail;
    } else {
      var name, v := members[0].name, members[0].value;
      var rest := MemberEvents(isPrint, members[1..]) + tail;
      assert MemberEvents(isPrint, members) + tail == [NewName(Quoted(isPrint, name))] + (Events(isPrint, v) + rest);
      RunCons(s, NewName(Quoted(isPrint, name)), Events(isPrint, v) + rest);
      GetStrQuoted(isPrint, name);
      var named := s.(name := name);
      FeedValue(isPrint, named, v, rest);
      var c, n := Extend(Here(s), name, v), LastName(v, name);
      var all, m := Obj(Here(s).members + members), LastMemberName(members, s.name);
      WithWith(s, c, n, all, m);
      FeedMembers(isPrint, With(s, c, n), members[1..], tail);
      assert Here(s).members + [members[0]] + members[1..] == Here(s).members + members;
    }
  }

  lemma SameAgain(s: State)
    requires InCompound(s)
    ensures With(s, Here(s), s.name) == s
  {
    PutSame(s.value, s.current.value);
  }

  lemma {:induction false} PutSame(v: Value, p: Path)
    requires At(v, p).Some?
    ensures Put(v, p, At(v, p).value) == v
    decreases |p|
  {
    if p != [] {
      PutSame(Kid(v, p[0]), p[1..]);
      KidInPlace(v, p[0]);
    }
  }

  lemma KidInPlace(v: Value, i: nat)
    requires i < Kids(v)
    ensures WithKid(v, i, Kid(v, i)) == v
  {
    match v
    case Arr(items) => assert items[i := items[i]] == items;
    case Obj(members) => assert members[i := members[i].(value := members[i].value)] == members;
  }

  /** From a fresh state, the events of any value rebuild exactly that value; no assertion of the source fails and no parent is left on the stack. */
  lemma EventsRebuild(isPrint: Printable, v: Value, before: Value)
    ensures var r := Run(Fresh(before), Events(isPrint, v));
            r.Some? && r.value.value == v && r.value.stack == [] && r.value.current == Some([])
  {
    hide Run;
    var s := Fresh(before);
    match v
    case Leaf(x) =>
      RunOne(s, ScalarEvent(isPrint, x));
      if x.Str? {
        GetStrQuoted(isPrint, x.s);
      }
    case Arr(items) =>
      var root := State(Arr([]), Some([]), [], []);
      assert Events(isPrint, v) == [BeginArr] + (ItemEvents(isPrint, items) + [EndArr]);
      RunCons(s, BeginArr, ItemEvents(isPrint, items) + [EndArr]);
      FeedItems(isPrint, root, items, [EndArr]);
      assert [] + items == items;
      RunOne(With(root, v, LastName(v, [])), EndArr);
    case Obj(members) =>
      var root := State(Obj([]), Some([]), [], []);
      assert Events(isPrint, v) == [BeginObj] + (MemberEvents(isPrint, members) + [EndObj]);
      RunCons(s, BeginObj, MemberEvents(isPrint, members) + [EndObj]);
      FeedMembers(isPrint, root, members, [EndObj]);
      assert [] + members == members;
      RunOne(With(root, v, LastName(v, [])), EndObj);
  }

  lemma RunOne(s: State, e: Event)
    ensures Run(s, [e]) == Step(s, e)
  {
    assert [e][1..] == [];
  }

  // ----- the pointers stay good -----

  predicate Above(q: Path, p: Path)
  {
    q <= p && q != p
  }

  /** `q` leads to a compound of the tree. */
  predicate PointsToCompound(v: Value, q: Path)
  {
    At(v, q).Some? && IsCompound(At(v, q).value)
  }

  /** The stacked pointers lie on the way from the root to the current one, each above the next, and all lead to compounds. */
  ghost predicate Nested(s: State)
  {
    && (s.current.None? ==> s.stack == [])
    && (s.current.Some? ==> At(s.value, s.current.value).Some?)
    && (forall i :: 0 <= i < |s.stack| ==> PointsToCompound(s.value, s.stack[i]) && Above(s.stack[i], s.current.value))
    && (forall i, j :: 0 <= i < j < |s.stack| ==> Above(s.stack[i], s.stack[j]))
  }

  /** Changing the tree at `p` leaves whatever is above `p` a compound with as many children as before. */
  lemma {:induction false} AbovePut(v: Value, p: Path, x: Value, q: Path)
    requires At(v, p).Some? && Above(q, p)
    ensures PointsToCompound(v, q) && PointsToCompound(Put(v, p, x), q)
    ensures Kids(At(Put(v, p, x), q).value) == Kids(At(v, q).value)
    decreases |p|
  {
    if q != [] {
      assert Above(q[1..], p[1..]);
      AbovePut(Kid(v, p[0]), p[1..], x, q[1..]);
    }
  }

  /** The place where `Add` extends a vector, and the new child there. */
  lemma AddExtends(s: State, x: Value)
    requires Add(s, x).Some? && s.current.Some?
    ensures var p, (s1, q) := s.current.value, Add(s, x).value;
            && At(s1.value, q) == Some(x) && Above(p, q) && PointsToCompound(s1.value, p)
            && s1.current == s.current && s1.stack == s.stack
            && forall r: Path :: Above(r, p) ==>
                 PointsToCompound(s.value, r) && PointsToCompound(s1.value, r) && Kids(At(s1.value, r).value) == Kids(At(s.value, r).value)
  {
    var p := s.current.value;
    var c := At(s.value, p).value;
    var d := Extend(c, s.name, x);
    AtPut(s.value, p, d);
    Below(Put(s.value, p, d), p, Kids(c), x);
    forall r: Path | Above(r, p)
      ensures PointsToCompound(s.value, r) && PointsToCompound(Put(s.value, p, d), r)
      ensures Kids(At(Put(s.value, p, d), r).value) == Kids(At(s.value, r).value)
    {
      AbovePut(s.value, p, d, r);
    }
  }

  lemma AddKeepsNested(s: State, x: Value)
    requires Nested(s) && Add(s, x).Some?
    ensures Nested(Add(s, x).value.0)
  {
    if s.current.Some? {
      AddExtends(s, x);
      hide Add, At, Put, PointsToCompound, Above;
    }
  }

  lemma BeginKeepsNested(s: State, empty: Value)
    requires Nested(s) && Begin(s, empty).Some?
    ensures Nested(Begin(s, empty).value)
  {
    if s.current.Some? {
      AddExtends(s, empty);
      hide Add, At, Put, PointsToCompound;
      var s1, p := Begin(s, empty).value, s.current.value;
      forall i | 0 <= i < |s1.stack|
        ensures PointsToCompound(s1.value, s1.stack[i]) && Above(s1.stack[i], s1.current.value)
      {
        assert i < |s.stack| ==> Above(s.stack[i], p);
      }
    }
  }

  lemma EndKeepsNested(s: State)
    requires Nested(s) && End(s).Some?
    ensures Nested(End(s).value)
  {
    hide Put;
  }

  /**
   No callback invalidates a pointer: it extends at most the vector of the current compound, and
   every stacked pointer leads to a compound above that one, in vectors that stay as long as they are.
   */
  lemma StepKeepsNested(s: State, e: Event)
    requires Nested(s) && Step(s, e).Some?
    ensures var s1 := Step(s, e).value;
            && Nested(s1)
            && forall i :: 0 <= i < |s.stack| ==>
                 && PointsToCompound(s.value, s.stack[i]) && PointsToCompound(s1.value, s.stack[i])
                 && Kids(At(s1.value, s.stack[i]).value) == Kids(At(s.value, s.stack[i]).value)
  {
    match e {
      case BeginObj => BeginKeepsNested(s, Obj([]));
      case BeginArr => BeginKeepsNested(s, Arr([]));
      case EndObj => EndKeepsNested(s);
      case EndArr => EndKeepsNested(s);
      case NewName(_) =>
      case NewStr(lit) => AddKeepsNested(s, Leaf(Str(GetStr(lit))));
      case NewOther(x) => AddKeepsNested(s, Leaf(x));
    }
    if s.stack != [] {
      StepExtends(s, e);
    }
    hide Step, At, Put, PointsToCompound;
  }

  /** Above the current compound a callback changes no vector's length. */
  lemma StepExtends(s: State, e: Event)
    requires Step(s, e).Some? && s.current.Some? && At(s.value, s.current.value).Some?
    ensures forall r: Path :: Above(r, s.current.value) ==>
              && PointsToCompound(s.value, r) && PointsToCompound(Step(s, e).value.value, r)
              && Kids(At(Step(s, e).value.value, r).value) == Kids(At(s.value, r).value)
  {
    var p := s.current.value;
    forall r: Path | Above(r, p)
      ensures PointsToCompound(s.value, r)
    {
      AbovePut(s.value, p, s.value, r);
    }
    match e {
      case BeginObj => AddExtends(s, Obj([]));
      case BeginArr => AddExtends(s, Arr([]));
      case NewStr(lit) => AddExtends(s, Leaf(Str(GetStr(lit))));
      case NewOther(x) => AddExtends(s, Leaf(x));
      case _ =>
    }
    hide At, Put, PointsToCompound, Above;
  }

  lemma {:induction false} RunStaysNested(s: State, es: seq<Event>)
    requires Nested(s) && Run(s, es).Some?
    ensures Nested(Run(s, es).value)
    decreases |es|
  {
    hide Nested, Step;
    if es != [] {
      StepKeepsNested(s, es[0]);
      RunStaysNested(Step(s, es[0]).value, es[1..]);
    }
  }

  lemma FreshIsNested(v: Value)
    ensures Nested(Fresh(v))
  {
  }

  /** So from the start of a parse the pointers are good after any callbacks at all, and in every state on the way. */
  lemma RunKeepsNested(v: Value, es: seq<Event>, n: nat)
    requires n <= |es| && Run(Fresh(v), es).Some?
    ensures Run(Fresh(v), es[..n]).Some? && Nested(Run(Fresh(v), es[..n]).value)
  {
    FreshIsNested(v);
    RunPrefix(Fresh(v), es, n);
    RunStaysNested(Fresh(v), es[..n]);
  }

  lemma {:induction false} RunPrefix(s: State, es: seq<Event>, n: nat)
    requires n <= |es| && Run(s, es).Some?
    ensures Run(s, es[..n]).Some?
    decreases n
  {
    hide Step;
    if n > 0 {
      assert es[..n][0] == es[0] && es[..n][1..] == es[1..][..n - 1];
      RunPrefix(Step(s, es[0]).value, es[1..], n - 1);
    }
  }
}
