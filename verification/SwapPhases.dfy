/**
 The phases of a swap between two parties (xbridgetransaction.cpp:70-181). Every phase ends
 when both parties have confirmed it, in turn from their source and their destination
 addresses. The main theorem says exactly which sequences of confirmations reach a phase.
 */
module SwapPhases {
  import opened Bytes

  datatype State =
    | trInvalid | trNew | trJoined | trHold | trInitialized | trCreated | trSigned | trCommited
    | trConfirmed | trFinished | trCancelled | trDropped

  type Address = Bytes

  /** One party: where its funds come from and where the others' shall go. */
  datatype Party = Party(source: Address, dest: Address)

  /** The part of a transaction that confirmations work on. */
  datatype Swap = Swap(state: State, firstChanged: bool, secondChanged: bool, first: Party, second: Party)

  datatype Call = Call(state: State, sender: Address)

  const PHASES: nat := 6

  /** The states in which confirmations are awaited, in order, and the final one. */
  function Phase(k: nat): State
    requires k <= PHASES
  {
    if k == 0 then trJoined else if k == 1 then trHold else if k == 2 then trInitialized else if k == 3 then trCreated
    else if k == 4 then trSigned else if k == 5 then trCommited else trFinished
  }

  /** The address from which a party confirms phase `k`. */
  function Designated(p: Party, k: nat): Address
  {
    if k % 2 == 0 then p.source else p.dest
  }

  /** One confirmation in phase `k`, when that is the current one. */
  function Hear(s: Swap, k: nat, sender: Address): Swap
    requires k < PHASES
  {
    var s1 :=
      if sender == Designated(s.first, k) then s.(firstChanged := true)
      else if sender == Designated(s.second, k) then s.(secondChanged := true)
      else s;
    if s1.firstChanged && s1.secondChanged then s1.(state := Phase(k + 1), firstChanged := false, secondChanged := false)
    else s1
  }

  /** The number of a state in which confirmations are awaited. */
  function Index(s: State): (k: nat)
    ensures k <= PHASES
    ensures k < PHASES <==> s in {trJoined, trHold, trInitialized, trCreated, trSigned, trCommited}
    ensures k < PHASES ==> Phase(k) == s
  {
    match s
    case trJoined => 0
    case trHold => 1
    case trInitialized => 2
    case trCreated => 3
    case trSigned => 4
    case trCommited => 5
    case _ => 6
  }

  /** `increaseStateCounter`. */
  function Confirm(s: Swap, c: Call): Swap
  {
    if c.state == s.state && Index(s.state) < PHASES then Hear(s, Index(s.state), c.sender) else s
  }

  // ----- runs -----

  function Joined(first: Party, second: Party): Swap
  {
    Swap(trJoined, false, false, first, second)
  }

  function Run(s: Swap, calls: seq<Call>): (t: Swap)
    decreases |calls|
  {
    if calls == [] then s else Run(Confirm(s, calls[0]), calls[1..])
  }

  /** A confirmation of phase `k` from this address is among the calls. */
  predicate Heard(calls: seq<Call>, k: nat, a: Address)
    requires k < PHASES
  {
    exists i :: 0 <= i < |calls| && calls[i] == Call(Phase(k), a)
  }

  /** Both parties have confirmed phase `k`, from different addresses. */
  predicate BothHeard(s: Swap, calls: seq<Call>, k: nat)
    requires k < PHASES
  {
    && Designated(s.first, k) != Designated(s.second, k)
    && Heard(calls, k, Designated(s.first, k)) && Heard(calls, k, Designated(s.second, k))
  }

  /** The calls fall into consecutive stretches from phase `k` on, of which each confirms its phase. */
  ghost predicate Walks(s: Swap, calls: seq<Call>, k: nat, upTo: nat)
    requires k <= upTo <= PHASES
    decreases upTo - k
  {
    k == upTo || exists n :: 0 <= n <= |calls| && BothHeard(s, calls[..n], k) && Walks(s, calls[n..], k + 1, upTo)
  }

  /** What has been heard in the current phase, with these flags already set at its start. */
  function Flags(s: Swap, calls: seq<Call>, k: nat): (f: (bool, bool))
    requires k < PHASES
  {
    (s.firstChanged || Heard(calls, k, Designated(s.first, k)),
     s.secondChanged || (Designated(s.first, k) != Designated(s.second, k) && Heard(calls, k, Designated(s.second, k))))
  }

  lemma HeardCons(c: Call, calls: seq<Call>, k: nat, a: Address)
    requires k < PHASES
    ensures Heard([c] + calls, k, a) <==> c == Call(Phase(k), a) || Heard(calls, k, a)
  {
    assert ([c] + calls)[0] == c;
    assert forall i :: 0 <= i < |calls| ==> ([c] + calls)[i + 1] == calls[i];
  }

  /** One stretch of calls in phase `k`: if it does not complete the phase it only sets the flags of the parties heard. */
  lemma {:induction false} Stretch(s: Swap, calls: seq<Call>, k: nat)
    requires k < PHASES && s.state == Phase(k) && !(s.firstChanged && s.secondChanged)
    requires Flags(s, calls, k) != (true, true)
    ensures Run(s, calls) == s.(firstChanged := Flags(s, calls, k).0, secondChanged := Flags(s, calls, k).1)
    decreases |calls|
  {
    hide Heard;
    if calls == [] {
      NothingHeard(k, Designated(s.first, k));
      NothingHeard(k, Designated(s.second, k));
    } else {
      assert calls == [calls[0]] + calls[1..];
      HeardCons(calls[0], calls[1..], k, Designated(s.first, k));
      HeardCons(calls[0], calls[1..], k, Designated(s.second, k));
      Stretch(Confirm(s, calls[0]), calls[1..], k);
    }
  }

  lemma NothingHeard(k: nat, a: Address)
    requires k < PHASES
    ensures !Heard([], k, a)
  {
  }

  lemma {:induction false} RunConcat(s: Swap, a: seq<Call>, b: seq<Call>)
    ensures Run(s, a + b) == Run(Run(s, a), b)
    decreases |a|
  {
    if a == [] {
      assert a + b == b;
    } else {
      assert (a + b)[1..] == a[1..] + b;
      RunConcat(Confirm(s, a[0]), a[1..], b);
    }
  }

  /** The shortest stretch that completes phase `k`, and what it leads to: the next phase with no flag set. */
  lemma {:induction false} Complete(s: Swap, calls: seq<Call>, k: nat) returns (n: nat)
    requires k < PHASES && s.state == Phase(k) && !(s.firstChanged && s.secondChanged)
    requires Flags(s, calls, k) == (true, true)
    ensures 0 < n <= |calls| && Flags(s, calls[..n], k) == (true, true) && Flags(s, calls[..n - 1], k) != (true, true)
    ensures Run(s, calls[..n]) == s.(state := Phase(k + 1), firstChanged := false, secondChanged := false)
    decreases |calls|
  {
    hide Heard, Designated;
    assert calls != [] by {
      NothingHeard(k, Designated(s.first, k));
      NothingHeard(k, Designated(s.second, k));
    }
    var last := |calls| - 1;
    var shorter := calls[..last];
    if Flags(s, shorter, k) == (true, true) {
      n := Complete(s, shorter, k);
      assert shorter[..n] == calls[..n] && shorter[..n - 1] == calls[..n - 1];
    } else {
      n := |calls|;
      Stretch(s, shorter, k);
      assert calls == shorter + [calls[last]] && calls[..n] == calls && calls[..n - 1] == shorter;
      RunConcat(s, shorter, [calls[last]]);
      LastCall(s, shorter, calls[last], k);
    }
  }

  lemma HeardSnoc(calls: seq<Call>, c: Call, k: nat, a: Address)
    requires k < PHASES
    ensures Heard(calls + [c], k, a) <==> c == Call(Phase(k), a) || Heard(calls, k, a)
  {
    assert (calls + [c])[|calls|] == c;
    assert forall i :: 0 <= i < |calls| ==> (calls + [c])[i] == calls[i];
  }

  lemma LastCall(s: Swap, calls: seq<Call>, c: Call, k: nat)
    requires k < PHASES && s.state == Phase(k)
    requires Flags(s, calls, k) != (true, true) && Flags(s, calls + [c], k) == (true, true)
    ensures var t := s.(firstChanged := Flags(s, calls, k).0, secondChanged := Flags(s, calls, k).1);
            Run(t, [c]) == s.(state := Phase(k + 1), firstChanged := false, secondChanged := false)
  {
    hide Heard;
    HeardSnoc(calls, c, k, Designated(s.first, k));
    HeardSnoc(calls, c, k, Designated(s.second, k));
    var t := s.(firstChanged := Flags(s, calls, k).0, secondChanged := Flags(s, calls, k).1);
    assert Run(t, [c]) == Confirm(t, c) by { assert [c][1..] == []; }
  }

  // ----- what a run reaches -----

  lemma BothHeardMore(s: Swap, a: seq<Call>, b: seq<Call>, c: seq<Call>, k: nat)
    requires k < PHASES && BothHeard(s, b, k)
    ensures BothHeard(s, a + b + c, k)
  {
    HeardMore(a, b, c, k, Designated(s.first, k));
    HeardMore(a, b, c, k, Designated(s.second, k));
  }

  lemma BothHeardPrefix(s: Swap, calls: seq<Call>, m: nat, n: nat, k: nat)
    requires k < PHASES && m <= n <= |calls| && BothHeard(s, calls[..m], k)
    ensures BothHeard(s, calls[..n], k)
  {
    BothHeardMore(s, [], calls[..m], calls[m..n], k);
    assert [] + calls[..m] + calls[m..n] == calls[..n];
  }

  lemma HeardMore(a: seq<Call>, b: seq<Call>, c: seq<Call>, k: nat, x: Address)
    requires k < PHASES && Heard(b, k, x)
    ensures Heard(a + b + c, k, x)
  {
    var i :| 0 <= i < |b| && b[i] == Call(Phase(k), x);
    assert (a + b + c)[|a| + i] == b[i];
  }

  /** More calls in front do not spoil a walk. */
  lemma {:induction false} WalksMore(s: Swap, extra: seq<Call>, calls: seq<Call>, k: nat, upTo: nat)
    requires k <= upTo <= PHASES && Walks(s, calls, k, upTo)
    ensures Walks(s, extra + calls, k, upTo)
  {
    hide BothHeard;
    if k < upTo {
      var n :| 0 <= n <= |calls| && BothHeard(s, calls[..n], k) && Walks(s, calls[n..], k + 1, upTo);
      BothHeardMore(s, extra, calls[..n], [], k);
      var m, all := |extra| + n, extra + calls;
      assert all[..m] == extra + calls[..n] + [] && all[m..] == calls[n..];
      assert BothHeard(s, all[..m], k) && Walks(s, all[m..], k + 1, upTo);
    }
  }

  lemma {:induction false} IndexGrows(s: Swap, calls: seq<Call>)
    ensures Index(Run(s, calls).state) >= Index(s.state)
    ensures Run(s, calls).first == s.first && Run(s, calls).second == s.second
    decreases |calls|
  {
    if calls != [] {
      IndexGrows(Confirm(s, calls[0]), calls[1..]);
    }
  }

  /** No phase is ever skipped or gone back to, and a phase that begins begins with no flag set. */
  lemma OneStepAtATime(s: Swap, c: Call)
    ensures var t := Confirm(s, c);
            || (t.state == s.state)
            || (Index(s.state) < PHASES && t.state == Phase(Index(s.state) + 1) && !t.firstChanged && !t.secondChanged)
    ensures Index(s.state) == PHASES ==> Confirm(s, c) == s
  {
  }

  lemma WalksSameParties(s: Swap, t: Swap, calls: seq<Call>, k: nat, upTo: nat)
    requires k <= upTo <= PHASES && s.first == t.first && s.second == t.second
    ensures Walks(s, calls, k, upTo) == Walks(t, calls, k, upTo)
    decreases upTo - k
  {
    if k < upTo {
      forall n | 0 <= n <= |calls|
        ensures Walks(s, calls[n..], k + 1, upTo) == Walks(t, calls[n..], k + 1, upTo)
        ensures BothHeard(s, calls[..n], k) == BothHeard(t, calls[..n], k)
      {
        WalksSameParties(s, t, calls[n..], k + 1, upTo);
      }
    }
  }

  /**
   A run from the start of phase `k` gets as far as phase `upTo` exactly when the calls, in
   order, contain the confirmations of both parties for each phase in between. Calls for other
   phases, repetitions, and the order within a phase make no difference.
   */
  lemma {:induction false} ReachesIffWalks(s: Swap, calls: seq<Call>, k: nat, upTo: nat)
    requires k <= upTo <= PHASES && s.state == Phase(k) && !s.firstChanged && !s.secondChanged
    ensures Index(Run(s, calls).state) >= upTo <==> Walks(s, calls, k, upTo)
    decreases upTo - k
  {
    hide BothHeard, Designated, Heard, Run, Walks;
    IndexGrows(s, calls);
    WalksUnfold(s, calls, k, upTo);
    if k < upTo {
      FlagsFromNone(s, calls, k);
      if Flags(s, calls, k) == (true, true) {
        var n := Complete(s, calls, k);
        var t := s.(state := Phase(k + 1));
        RunConcat(s, calls[..n], calls[n..]);
        assert calls[..n] + calls[n..] == calls;
        ReachesIffWalks(t, calls[n..], k + 1, upTo);
        WalksSameParties(s, t, calls[n..], k + 1, upTo);
        GreedyWalk(s, calls, k, upTo, n);
      } else {
        Stretch(s, calls, k);
        NoWalk(s, calls, k, upTo);
      }
    }
  }

  lemma WalksUnfold(s: Swap, calls: seq<Call>, k: nat, upTo: nat)
    requires k <= upTo <= PHASES
    ensures k == upTo ==> Walks(s, calls, k, upTo)
  {
  }

  lemma FlagsFromNone(s: Swap, calls: seq<Call>, k: nat)
    requires k < PHASES && !s.firstChanged && !s.secondChanged
    ensures Flags(s, calls, k) == (true, true) <==> BothHeard(s, calls, k)
  {
  }

  /** Taking the shortest stretch for a phase leaves the most for the others. */
  lemma GreedyWalk(s: Swap, calls: seq<Call>, k: nat, upTo: nat, n: nat)
    requires k < upTo <= PHASES && !s.firstChanged && !s.secondChanged
    requires 0 < n <= |calls| && Flags(s, calls[..n], k) == (true, true) && Flags(s, calls[..n - 1], k) != (true, true)
    ensures Walks(s, calls, k, upTo) <==> Walks(s, calls[n..], k + 1, upTo)
  {
    hide Heard, Flags;
    FlagsFromNone(s, calls[..n], k);
    FlagsFromNone(s, calls[..n - 1], k);
    if Walks(s, calls, k, upTo) {
      var m :| 0 <= m <= |calls| && BothHeard(s, calls[..m], k) && Walks(s, calls[m..], k + 1, upTo);
      if m < n {
        BothHeardPrefix(s, calls, m, n - 1, k);
      }
      assert calls[n..] == calls[n..m] + calls[m..];
      WalksMore(s, calls[n..m], calls[m..], k + 1, upTo);
    }
  }

  lemma NoWalk(s: Swap, calls: seq<Call>, k: nat, upTo: nat)
    requires k < upTo <= PHASES && !BothHeard(s, calls, k)
    ensures !Walks(s, calls, k, upTo)
  {
    hide Heard;
    assert calls[..|calls|] == calls;
    if Walks(s, calls, k, upTo) {
      var n :| 0 <= n <= |calls| && BothHeard(s, calls[..n], k) && Walks(s, calls[n..], k + 1, upTo);
      BothHeardPrefix(s, calls, n, |calls|, k);
    }
  }

  /** A joined swap finishes exactly when the six phases are confirmed by both parties, one after the other. */
  lemma FinishesIff(first: Party, second: Party, calls: seq<Call>)
    ensures Run(Joined(first, second), calls).state == trFinished <==> Walks(Joined(first, second), calls, 0, PHASES)
  {
    ReachesIffWalks(Joined(first, second), calls, 0, PHASES);
    StaysInChain(Joined(first, second), calls);
  }

  lemma {:induction false} StaysInChain(s: Swap, calls: seq<Call>)
    requires s.state == Phase(Index(s.state))
    ensures Run(s, calls).state == Phase(Index(Run(s, calls).state))
    decreases |calls|
  {
    if calls != [] {
      OneStepAtATime(s, calls[0]);
      StaysInChain(Confirm(s, calls[0]), calls[1..]);
    }
  }

  /** Two parties with the same source address can never leave the first phase, and with the same destination never the second. */
  lemma SameAddressIsStuck(first: Party, second: Party, calls: seq<Call>)
    ensures first.source == second.source ==> Run(Joined(first, second), calls).state == trJoined
    ensures first.dest == second.dest ==> Run(Joined(first, second), calls).state in {trJoined, trHold}
    ensures first.source != second.source && first.dest != second.dest ==>
            exists good :: Run(Joined(first, second), good).state == trFinished
  {
    var s := Joined(first, second);
    StaysInChain(s, calls);
    ReachesIffWalks(s, calls, 0, 1);
    ReachesIffWalks(s, calls, 0, 2);
    if first.source == second.source {
      assert !BothHeard(s, calls, 0);
      NoWalk(s, calls, 0, 1);
    }
    if first.dest == second.dest {
      assert forall n :: 0 <= n <= |calls| ==> !BothHeard(s, calls[n..], 1);
      assert forall n :: 0 <= n <= |calls| ==> !Walks(s, calls[n..], 1, 2) by {
        forall n | 0 <= n <= |calls| ensures !Walks(s, calls[n..], 1, 2) { NoWalk(s, calls[n..], 1, 2); }
      }
    }
    if first.source != second.source && first.dest != second.dest {
      var good := Good(s, 0);
      GoodRun(s, 0);
    }
  }

  /** Every party confirming every phase from `k` on, once. */
  function Good(s: Swap, k: nat): (calls: seq<Call>)
    requires k <= PHASES
    decreases PHASES - k
  {
    if k == PHASES then []
    else [Call(Phase(k), Designated(s.first, k)), Call(Phase(k), Designated(s.second, k))] + Good(s, k + 1)
  }

  lemma {:induction false} GoodRun(s: Swap, k: nat)
    requires k <= PHASES && s.state == Phase(k) && !s.firstChanged && !s.secondChanged
    requires s.first.source != s.second.source && s.first.dest != s.second.dest
    ensures Run(s, Good(s, k)).state == trFinished
    decreases PHASES - k
  {
    if k < PHASES {
      var c, d := Call(Phase(k), Designated(s.first, k)), Call(Phase(k), Designated(s.second, k));
      var t := s.(state := Phase(k + 1));
      assert Confirm(Confirm(s, c), d) == t;
      RunTwo(s, c, d, Good(s, k + 1));
      assert Good(s, k + 1) == Good(t, k + 1) by { GoodSame(s, t, k + 1); }
      GoodRun(t, k + 1);
    }
  }

  lemma RunTwo(s: Swap, c: Call, d: Call, rest: seq<Call>)
    ensures Run(s, [c, d] + rest) == Run(Confirm(Confirm(s, c), d), rest)
  {
    assert ([c, d] + rest)[1..] == [d] + rest && ([d] + rest)[1..] == rest;
  }

  lemma GoodSame(s: Swap, t: Swap, k: nat)
    requires k <= PHASES && s.first == t.first && s.second == t.second
    ensures Good(s, k) == Good(t, k)
    decreases PHASES - k
  {
  }

  /** No call confirms the phase behind `k`, so none can count before all of phase `k` is over. */
  predicate NoneAhead(calls: seq<Call>, k: nat)
    requires k < PHASES
  {
    forall i :: 0 <= i < |calls| ==> calls[i].state != Phase(k + 1)
  }

  /** What phase `k` comes to, given the flags heard by its end. */
  function Outcome(s: Swap, k: nat, flags: (bool, bool)): Swap
    requires k < PHASES
  {
    if flags == (true, true) then s.(state := Phase(k + 1), firstChanged := false, secondChanged := false)
    else s.(firstChanged := flags.0, secondChanged := flags.1)
  }

  /**
   Within a phase only which calls there are matters, not their order nor how often they come:
   calls that differ in that alone leave the very same state, whether they complete the phase,
   and then it is the next one with both flags clear, or not.
   */
  lemma OrderDoesNotMatter(s: Swap, a: seq<Call>, b: seq<Call>, k: nat)
    requires k < PHASES && s.state == Phase(k) && !(s.firstChanged && s.secondChanged)
    requires (forall c :: c in a <==> c in b) && NoneAhead(a, k)
    ensures Run(s, a) == Run(s, b) == Outcome(s, k, Flags(s, a, k))
  {
    SameHeard(a, b, k, Designated(s.first, k));
    SameHeard(a, b, k, Designated(s.second, k));
    assert NoneAhead(b, k) by {
      forall i | 0 <= i < |b|
        ensures b[i].state != Phase(k + 1)
      {
        assert b[i] in a;
      }
    }
    PhaseOutcome(s, a, k);
    PhaseOutcome(s, b, k);
  }

  /** The result of a run without calls for the next phase, from the set of confirmations heard. */
  lemma PhaseOutcome(s: Swap, calls: seq<Call>, k: nat)
    requires k < PHASES && s.state == Phase(k) && !(s.firstChanged && s.secondChanged) && NoneAhead(calls, k)
    ensures Run(s, calls) == Outcome(s, k, Flags(s, calls, k))
  {
    if Flags(s, calls, k) != (true, true) {
      Stretch(s, calls, k);
    } else {
      var n := Complete(s, calls, k);
      RunConcat(s, calls[..n], calls[n..]);
      assert calls[..n] + calls[n..] == calls;
      OtherCallsDoNothing(Outcome(s, k, (true, true)), calls[n..]);
    }
  }

  /** Calls for phases other than the current one change nothing. */
  lemma {:induction false} OtherCallsDoNothing(s: Swap, calls: seq<Call>)
    requires forall i :: 0 <= i < |calls| ==> calls[i].state != s.state
    ensures Run(s, calls) == s
    decreases |calls|
  {
    if calls != [] {
      assert Confirm(s, calls[0]) == s;
      OtherCallsDoNothing(s, calls[1..]);
    }
  }

  lemma SameHeard(a: seq<Call>, b: seq<Call>, k: nat, x: Address)
    requires k < PHASES && forall c :: c in a <==> c in b
    ensures Heard(a, k, x) == Heard(b, k, x)
  {
    assert Heard(a, k, x) <==> Call(Phase(k), x) in a;
    assert Heard(b, k, x) <==> Call(Phase(k), x) in b;
  }

  /** A walk past phase `j` has heard both parties confirm it. */
  lemma {:induction false} WalksHeard(s: Swap, calls: seq<Call>, k: nat, upTo: nat, j: nat)
    requires k <= j < upTo <= PHASES && Walks(s, calls, k, upTo)
    ensures BothHeard(s, calls, j)
    decreases j - k
  {
    hide BothHeard;
    var n :| 0 <= n <= |calls| && BothHeard(s, calls[..n], k) && Walks(s, calls[n..], k + 1, upTo);
    assert [] + calls[..n] + calls[n..] == calls && calls[..n] + calls[n..] + [] == calls;
    if j == k {
      BothHeardMore(s, [], calls[..n], calls[n..], k);
    } else {
      WalksHeard(s, calls[n..], k + 1, upTo, j);
      BothHeardMore(s, calls[..n], calls[n..], [], j);
    }
  }

  // ----- the table of phases -----

  /** In the states after even steps the sources confirm, in the others the destinations. */
  function Confirming(p: Party, state: State): Address
  {
    match state
    case trJoined => p.source
    case trInitialized => p.source
    case trSigned => p.source
    case _ => p.dest
  }

  function Successor(state: State): State
  {
    match state
    case trJoined => trHold
    case trHold => trInitialized
    case trInitialized => trCreated
    case trCreated => trSigned
    case trSigned => trCommited
    case trCommited => trFinished
    case _ => trInvalid
  }

  predicate Awaiting(state: State)
  {
    state in {trJoined, trHold, trInitialized, trCreated, trSigned, trCommited}
  }

  /**
   In each of the six states, from flags that are clear: the confirmations of both parties, in either
   order, lead to the next state with clear flags; one of them alone sets the flag of its party; anyone
   else, and any call for another state, changes nothing.
   */
  lemma StateByState(s: Swap, a: Call, b: Call)
    requires Awaiting(s.state) && !s.firstChanged && !s.secondChanged
    ensures var one, two := Confirming(s.first, s.state), Confirming(s.second, s.state);
            && (a.state != s.state ==> Confirm(s, a) == s)
            && (a.state == s.state && a.sender != one && a.sender != two ==> Confirm(s, a) == s)
            && (a.state == s.state && a.sender == one ==> Confirm(s, a) == s.(firstChanged := true))
            && (a.state == s.state && a.sender == two && one != two ==> Confirm(s, a) == s.(secondChanged := true))
            && (a.state == b.state == s.state && a.sender != b.sender && {a.sender, b.sender} == {one, two} ==>
                  Confirm(Confirm(s, a), b) == s.(state := Successor(s.state)))
  {
    assert {a.sender, b.sender} == {Confirming(s.first, s.state), Confirming(s.second, s.state)} ==>
             a.sender in {Confirming(s.first, s.state), Confirming(s.second, s.state)}
             && b.sender in {Confirming(s.first, s.state), Confirming(s.second, s.state)};
  }

  /** In all other states confirmations change nothing. */
  lemma OtherStates(s: Swap, a: Call)
    requires !Awaiting(s.state)
    ensures Confirm(s, a) == s
  {
  }

  function Two(state: State, a: Address, b: Address): seq<Call>
  {
    [Call(state, a), Call(state, b)]
  }

  /** Twelve confirmations, each party's in turn from its source and its destination, finish a swap whose parties differ. */
  lemma TwelveFinish(first: Party, second: Party)
    requires first.source != second.source && first.dest != second.dest
    ensures var a, b, c, d := first.source, second.source, first.dest, second.dest;
            Run(Joined(first, second),
                Two(trJoined, a, b) + (Two(trHold, c, d) + (Two(trInitialized, a, b)
                + (Two(trCreated, c, d) + (Two(trSigned, a, b) + (Two(trCommited, c, d) + []))))))
            == Swap(trFinished, false, false, first, second)
  {
    hide Run, Confirm, Two;
    var a, b, c, d := first.source, second.source, first.dest, second.dest;
    var s := Joined(first, second);
    var r5 := Two(trCommited, c, d) + [];
    var r4 := Two(trSigned, a, b) + r5;
    var r3 := Two(trCreated, c, d) + r4;
    var r2 := Two(trInitialized, a, b) + r3;
    var r1 := Two(trHold, c, d) + r2;
    TwoCalls(s, a, b, r1);
    TwoCalls(s.(state := trHold), c, d, r2);
    TwoCalls(s.(state := trInitialized), a, b, r3);
    TwoCalls(s.(state := trCreated), c, d, r4);
    TwoCalls(s.(state := trSigned), a, b, r5);
    TwoCalls(s.(state := trCommited), c, d, []);
    EmptyRun(s.(state := trFinished));
  }

  lemma EmptyRun(s: Swap)
    ensures Run(s, []) == s
  {
  }

  lemma TwoCalls(s: Swap, a: Address, b: Address, rest: seq<Call>)
    requires Awaiting(s.state) && !s.firstChanged && !s.secondChanged
    requires a == Confirming(s.first, s.state) && b == Confirming(s.second, s.state) && a != b
    ensures Run(s, Two(s.state, a, b) + rest) == Run(s.(state := Successor(s.state)), rest)
  {
    hide Confirm;
    var x, y := Call(s.state, a), Call(s.state, b);
    StateByState(s, x, y);
    assert (Two(s.state, a, b) + rest)[0] == x && (Two(s.state, a, b) + rest)[1..] == [y] + rest;
    assert ([y] + rest)[0] == y && ([y] + rest)[1..] == rest;
  }
}
