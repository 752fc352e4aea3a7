/**
 The messages by which the parties confirm the phases of a swap (xbridgeexchange.cpp:254-361),
 and the papers some of them bring along (xbridgetransaction.cpp:459-538).
 */
module SwapMessages {
  import opened Bytes
  import opened SwapPhases
  import opened Wrappers

  datatype Message =
    | HoldApply(sender: Address)
    | Initialized(sender: Address)
    | Created(sender: Address, pay: Bytes, rev: Bytes)
    | Signed(sender: Address, rev: Bytes)
    | Commited(sender: Address, hash: Bytes)
    | Confirmed(sender: Address)

  /** The phase that a message confirms. */
  function PhaseOf(msg: Message): (k: nat)
    ensures k < PHASES
  {
    match msg
    case HoldApply(_) => 0
    case Initialized(_) => 1
    case Created(_, _, _) => 2
    case Signed(_, _) => 3
    case Commited(_, _) => 4
    case Confirmed(_) => 5
  }

  function CallOf(msg: Message): Call
  {
    Call(Phase(PhaseOf(msg)), msg.sender)
  }

  /** Which state each message confirms. */
  lemma MessagesConfirm(a: Address, x: Bytes, y: Bytes)
    ensures CallOf(HoldApply(a)) == Call(trJoined, a) && CallOf(Initialized(a)) == Call(trHold, a)
    ensures CallOf(Created(a, x, y)) == Call(trInitialized, a) && CallOf(Signed(a, x)) == Call(trCreated, a)
    ensures CallOf(Commited(a, x)) == Call(trSigned, a) && CallOf(Confirmed(a)) == Call(trCommited, a)
  {
  }

  /** Raw payment and refund transactions of both parties, and the hashes of the payments. */
  datatype Papers = Papers(pay1: Bytes, rev1: Bytes, pay2: Bytes, rev2: Bytes, hash1: Bytes, hash2: Bytes)

  /** A swap with its papers, and the hub's map from payments not yet seen to their transactions. */
  datatype Deal = Deal(id: Bytes, swap: Swap, papers: Papers, unconfirmed: map<Bytes, Bytes>)

  /** `setRawPayTx`, `updateRawRevTx` and `setTxHash`: nothing if the sender is no party. The second party is looked at first. */
  function Filed(d: Papers, first: Party, second: Party, msg: Message): Option<Papers>
  {
    match msg
    case Created(a, pay, rev) =>
      if second.source == a then Some(d.(pay2 := pay, rev2 := rev))
      else if first.source == a then Some(d.(pay1 := pay, rev1 := rev))
      else None
    case Signed(a, rev) =>
      if second.dest == a then Some(d.(rev1 := rev))
      else if first.dest == a then Some(d.(rev2 := rev))
      else None
    case Commited(a, hash) =>
      if second.source == a then Some(d.(hash1 := hash))
      else if first.source == a then Some(d.(hash2 := hash))
      else None
    case _ => Some(d)
  }

  /** One message to the hub. */
  function Deliver(t: Deal, msg: Message): (r: Deal)
    ensures r.id == t.id && r.swap.first == t.swap.first && r.swap.second == t.swap.second
  {
    match Filed(t.papers, t.swap.first, t.swap.second, msg)
    case None => t
    case Some(d) =>
      t.(papers := d,
         unconfirmed := if msg.Commited? then t.unconfirmed[msg.hash := t.id] else t.unconfirmed,
         swap := Confirm(t.swap, CallOf(msg)))
  }

  /** The object of the source, with the addresses fixed when the second party joins. */
  class XBridgeTransaction {
    const id: Bytes
    var state: State
    var firstChanged: bool
    var secondChanged: bool
    const first: Party
    const second: Party
    var papers: Papers

    ghost function Now(): Swap
      reads this
    {
      Swap(state, firstChanged, secondChanged, first, second)
    }

    /** A transaction just joined. */
    constructor (id: Bytes, first: Party, second: Party)
      ensures Now() == Joined(first, second) && this.id == id && papers == Papers([], [], [], [], [], [])
    {
      this.id, this.first, this.second := id, first, second;
      state, firstChanged, secondChanged := trJoined, false, false;
      papers := Papers([], [], [], [], [], []);
    }

    method IncreaseStateCounter(st: State, sender: Address) returns (r: State)
      modifies this`state, this`firstChanged, this`secondChanged
      ensures Now() == Confirm(old(Now()), Call(st, sender))
      ensures r == if st == old(state) && Index(st) < PHASES then state else trInvalid
    {
      if st == trJoined && state == st {
        HearFrom(sender, first.source, second.source, trHold);
        return state;
      } else if st == trHold && state == st {
        HearFrom(sender, first.dest, second.dest, trInitialized);
        return state;
      } else if st == trInitialized && state == st {
        HearFrom(sender, first.source, second.source, trCreated);
        return state;
      } else if st == trCreated && state == st {
        HearFrom(sender, first.dest, second.dest, trSigned);
        return state;
      } else if st == trSigned && state == st {
        HearFrom(sender, first.source, second.source, trCommited);
        return state;
      } else if st == trCommited && state == st {
        HearFrom(sender, first.dest, second.dest, trFinished);
        return state;
      }
      return trInvalid;
    }

    /** The body all six phases have in common. */
    method HearFrom(sender: Address, one: Address, other: Address, next: State)
      modifies this`state, this`firstChanged, this`secondChanged
      ensures var f := old(firstChanged) || sender == one;
              var s := old(secondChanged) || (sender != one && sender == other);
              if f && s then state == next && !firstChanged && !secondChanged
              else state == old(state) && firstChanged == f && secondChanged == s
    {
      if sender == one {
        firstChanged := true;
      } else if sender == other {
        secondChanged := true;
      }
      if firstChanged && secondChanged {
        state := next;
        firstChanged, secondChanged := false, false;
      }
    }

    method SetRawPayTx(a: Address, pay: Bytes, rev: Bytes) returns (ok: bool)
      modifies this`papers
      ensures ok <==> Filed(old(papers), first, second, Created(a, pay, rev)).Some?
      ensures papers == if ok then Filed(old(papers), first, second, Created(a, pay, rev)).value else old(papers)
    {
      if second.source == a {
        papers := papers.(pay2 := pay, rev2 := rev);
        return true;
      } else if first.source == a {
        papers := papers.(pay1 := pay, rev1 := rev);
        return true;
      }
      return false;
    }

    method UpdateRawRevTx(a: Address, rev: Bytes) returns (ok: bool)
      modifies this`papers
      ensures ok <==> Filed(old(papers), first, second, Signed(a, rev)).Some?
      ensures papers == if ok then Filed(old(papers), first, second, Signed(a, rev)).value else old(papers)
    {
      if second.dest == a {
        papers := papers.(rev1 := rev);
        return true;
      } else if first.dest == a {
        papers := papers.(rev2 := rev);
        return true;
      }
      return false;
    }

    method SetTxHash(a: Address, hash: Bytes) returns (ok: bool)
      modifies this`papers
      ensures ok <==> Filed(old(papers), first, second, Commited(a, hash)).Some?
      ensures papers == if ok then Filed(old(papers), first, second, Commited(a, hash)).value else old(papers)
    {
      if second.source == a {
        papers := papers.(hash1 := hash);
        return true;
      } else if first.source == a {
        papers := papers.(hash2 := hash);
        return true;
      }
      return false;
    }
  }

  /** The six entry points of the hub, and its map of unconfirmed payments. */
  class Hub {
    var unconfirmed: map<Bytes, Bytes>

    constructor ()
      ensures unconfirmed == map[]
    {
      unconfirmed := map[];
    }

    ghost function DealOf(tx: XBridgeTransaction): Deal
      reads this, tx
    {
      Deal(tx.id, tx.Now(), tx.papers, unconfirmed)
    }

    /** `updateTransactionWhen...Received`: true for the one message that ends its phase; a message from an unknown sender changes nothing. */
    method Receive(tx: XBridgeTransaction, msg: Message) returns (advanced: bool)
      modifies this, tx
      ensures DealOf(tx) == Deliver(old(DealOf(tx)), msg)
      ensures advanced <==> old(tx.state) == Phase(PhaseOf(msg)) && tx.state == Phase(PhaseOf(msg) + 1)
    {
      match msg {
        case Created(a, pay, rev) =>
          var ok := tx.SetRawPayTx(a, pay, rev);
          if !ok {
            return false;
          }
        case Signed(a, rev) =>
          var ok := tx.UpdateRawRevTx(a, rev);
          if !ok {
            return false;
          }
        case Commited(a, hash) =>
          var ok := tx.SetTxHash(a, hash);
          if !ok {
            return false;
          }
          unconfirmed := unconfirmed[hash := tx.id];
        case _ =>
      }
      var r := tx.IncreaseStateCounter(Phase(PhaseOf(msg)), msg.sender);
      return r == Phase(PhaseOf(msg) + 1);
    }
  }

  // ----- runs of messages -----

  function DeliverAll(t: Deal, msgs: seq<Message>): (r: Deal)
    ensures r.id == t.id && r.swap.first == t.swap.first && r.swap.second == t.swap.second
    decreases |msgs|
  {
    if msgs == [] then t else Deliver(DeliverAll(t, msgs[..|msgs| - 1]), msgs[|msgs| - 1])
  }

  function CallsOf(msgs: seq<Message>): (calls: seq<Call>)
    ensures |calls| == |msgs| && forall i :: 0 <= i < |msgs| ==> calls[i] == CallOf(msgs[i])
  {
    seq(|msgs|, i requires 0 <= i < |msgs| => CallOf(msgs[i]))
  }

  /** A message from someone who is neither party's designated address changes nothing at all. */
  lemma StrangersChangeNothing(t: Deal, msg: Message)
    requires msg.sender != Designated(t.swap.first, PhaseOf(msg)) && msg.sender != Designated(t.swap.second, PhaseOf(msg))
    requires !(t.swap.firstChanged && t.swap.secondChanged)
    ensures Deliver(t, msg) == t
  {
  }

  /** For the phases a message is its confirmation and nothing else: papers never hold a phase up or move it on. */
  lemma {:induction false} PhasesFollowCalls(t: Deal, msgs: seq<Message>)
    requires !(t.swap.firstChanged && t.swap.secondChanged)
    ensures DeliverAll(t, msgs).swap == Run(t.swap, CallsOf(msgs))
    ensures var s := DeliverAll(t, msgs).swap; !(s.firstChanged && s.secondChanged)
    decreases |msgs|
  {
    hide Index;
    if msgs == [] {
      assert CallsOf(msgs) == [];
    } else {
      var front, last := msgs[..|msgs| - 1], msgs[|msgs| - 1];
      PhasesFollowCalls(t, front);
      assert CallsOf(msgs) == CallsOf(front) + [CallOf(last)];
      RunConcat(t.swap, CallsOf(front), [CallOf(last)]);
      DeliverConfirms(DeliverAll(t, front), last);
    }
  }

  lemma DeliverConfirms(t: Deal, msg: Message)
    requires !(t.swap.firstChanged && t.swap.secondChanged)
    ensures Deliver(t, msg).swap == Confirm(t.swap, CallOf(msg)) == Run(t.swap, [CallOf(msg)])
    ensures var s := Deliver(t, msg).swap; !(s.firstChanged && s.secondChanged)
  {
    assert [CallOf(msg)][1..] == [];
  }

  /** `pay` and some refund were sent by `a`. */
  ghost predicate Paid(msgs: seq<Message>, a: Address, pay: Bytes)
  {
    exists i :: 0 <= i < |msgs| && msgs[i].Created? && msgs[i].sender == a && msgs[i].pay == pay
  }

  ghost predicate SentHash(msgs: seq<Message>, a: Address, hash: Bytes)
  {
    exists i :: 0 <= i < |msgs| && msgs[i] == Commited(a, hash)
  }

  /** The papers after a message. */
  function PapersAfter(t: Deal, msg: Message): Papers
  {
    Deliver(t, msg).papers
  }

  /** A party's messages replace that party's papers and nobody else's. */
  lemma OneMessage(t: Deal, msg: Message)
    requires t.swap.first.source != t.swap.second.source
    ensures var d, d1, a, b := t.papers, PapersAfter(t, msg), t.swap.first.source, t.swap.second.source;
            && d1.pay1 == (if msg.Created? && msg.sender == a then msg.pay else d.pay1)
            && d1.pay2 == (if msg.Created? && msg.sender == b then msg.pay else d.pay2)
            && d1.hash2 == (if msg.Commited? && msg.sender == a then msg.hash else d.hash2)
            && d1.hash1 == (if msg.Commited? && msg.sender == b then msg.hash else d.hash1)
  {
    hide Confirm;
  }

  ghost predicate Pays(msgs: seq<Message>, a: Address)
  {
    exists i :: 0 <= i < |msgs| && msgs[i].Created? && msgs[i].sender == a
  }

  ghost predicate Commits(msgs: seq<Message>, a: Address)
  {
    exists i :: 0 <= i < |msgs| && msgs[i].Commited? && msgs[i].sender == a
  }

  /** Whatever the papers hold from a party that has sent some, that party has sent itself. */
  lemma {:induction false} PapersAreTheirOwn(t: Deal, msgs: seq<Message>)
    requires t.swap.first.source != t.swap.second.source
    ensures var d, a, b := DeliverAll(t, msgs).papers, t.swap.first.source, t.swap.second.source;
            && (Pays(msgs, a) ==> Paid(msgs, a, d.pay1)) && (Pays(msgs, b) ==> Paid(msgs, b, d.pay2))
            && (Commits(msgs, a) ==> SentHash(msgs, a, d.hash2)) && (Commits(msgs, b) ==> SentHash(msgs, b, d.hash1))
    decreases |msgs|
  {
    if msgs != [] {
      var front, last := msgs[..|msgs| - 1], msgs[|msgs| - 1];
      PapersAreTheirOwn(t, front);
      OneMessage(DeliverAll(t, front), last);
      assert msgs == front + [last];
      PaysSnoc(front, last, t.swap.first.source);
      PaysSnoc(front, last, t.swap.second.source);
      SentMore(front, msgs);
      LastSent(msgs);
      hide Deliver, Pays, Commits, Paid, SentHash;
    }
  }

  lemma PaysSnoc(front: seq<Message>, last: Message, a: Address)
    ensures Pays(front + [last], a) <==> Pays(front, a) || (last.Created? && last.sender == a)
    ensures Commits(front + [last], a) <==> Commits(front, a) || (last.Commited? && last.sender == a)
  {
    var all := front + [last];
    assert all[|front|] == last && forall i :: 0 <= i < |front| ==> all[i] == front[i];
  }

  lemma LastSent(msgs: seq<Message>)
    requires msgs != []
    ensures var last := msgs[|msgs| - 1];
            && (last.Created? ==> Paid(msgs, last.sender, last.pay))
            && (last.Commited? ==> SentHash(msgs, last.sender, last.hash))
  {
  }

  lemma SentMore(front: seq<Message>, msgs: seq<Message>)
    requires front <= msgs
    ensures forall a, pay :: Paid(front, a, pay) ==> Paid(msgs, a, pay)
    ensures forall a, hash :: SentHash(front, a, hash) ==> SentHash(msgs, a, hash)
  {
    forall a, pay | Paid(front, a, pay)
      ensures Paid(msgs, a, pay)
    {
      var i :| 0 <= i < |front| && front[i].Created? && front[i].sender == a && front[i].pay == pay;
      assert msgs[i] == front[i];
    }
    forall a, hash | SentHash(front, a, hash)
      ensures SentHash(msgs, a, hash)
    {
      var i :| 0 <= i < |front| && front[i] == Commited(a, hash);
      assert msgs[i] == front[i];
    }
  }

  /**
   A swap that has got past the creation phase holds a payment from each party that this party
   has sent; past the commitment phase it holds a payment hash from each, too.
   */
  lemma PhasesHavePapers(t: Deal, msgs: seq<Message>)
    requires t.swap == Joined(t.swap.first, t.swap.second)
    ensures var r, a, b := DeliverAll(t, msgs), t.swap.first.source, t.swap.second.source;
            && (Index(r.swap.state) > 2 ==> Paid(msgs, a, r.papers.pay1) && Paid(msgs, b, r.papers.pay2))
            && (Index(r.swap.state) > 4 ==> SentHash(msgs, a, r.papers.hash2) && SentHash(msgs, b, r.papers.hash1))
  {
    hide DeliverAll, Paid, SentHash, Pays, Commits;
    var state := DeliverAll(t, msgs).swap.state;
    if Index(state) > 2 {
      HeardEarlier(t, msgs, 2);
      HeardMessages(t.swap, msgs, 2);
      PapersAreTheirOwn(t, msgs);
    }
    if Index(state) > 4 {
      HeardEarlier(t, msgs, 4);
      HeardMessages(t.swap, msgs, 4);
      PapersAreTheirOwn(t, msgs);
    }
  }

  /** A phase left behind has been confirmed by two different parties. */
  lemma HeardEarlier(t: Deal, msgs: seq<Message>, k: nat)
    requires t.swap == Joined(t.swap.first, t.swap.second) && k < PHASES && Index(DeliverAll(t, msgs).swap.state) > k
    ensures BothHeard(t.swap, CallsOf(msgs), k)
  {
    hide Walks, BothHeard, Run, DeliverAll;
    PhasesFollowCalls(t, msgs);
    ReachesIffWalks(t.swap, CallsOf(msgs), 0, k + 1);
    WalksHeard(t.swap, CallsOf(msgs), 0, k + 1, k);
  }

  lemma HeardMessages(s: Swap, msgs: seq<Message>, k: nat)
    requires k < PHASES && BothHeard(s, CallsOf(msgs), k)
    ensures Designated(s.first, k) != Designated(s.second, k)
    ensures k == 2 ==> Pays(msgs, s.first.source) && Pays(msgs, s.second.source)
    ensures k == 4 ==> Commits(msgs, s.first.source) && Commits(msgs, s.second.source)
  {
    var calls := CallsOf(msgs);
    var i :| 0 <= i < |calls| && calls[i] == Call(Phase(k), Designated(s.first, k));
    var j :| 0 <= j < |calls| && calls[j] == Call(Phase(k), Designated(s.second, k));
    assert calls[i] == CallOf(msgs[i]) && calls[j] == CallOf(msgs[j]);
  }

  // ----- who writes the refunds -----

  /** Whose refund: that of the first or of the second party. */
  datatype Side = First | Second

  function Refund(d: Papers, side: Side): Bytes
  {
    if side.First? then d.rev1 else d.rev2
  }

  /** A party writes its own refund from its source, and the other party's from its destination. */
  predicate Writes(first: Party, second: Party, msg: Message, side: Side)
  {
    match msg
    case Created(a, _, _) => if side.Second? then a == second.source else a == first.source && a != second.source
    case Signed(a, _) => if side.First? then a == second.dest else a == first.dest && a != second.dest
    case _ => false
  }

  function LastWriter(first: Party, second: Party, msgs: seq<Message>, side: Side): (r: Option<nat>)
    ensures r.None? <==> forall i :: 0 <= i < |msgs| ==> !Writes(first, second, msgs[i], side)
    ensures r.Some? ==> r.value < |msgs| && Writes(first, second, msgs[r.value], side)
    ensures r.Some? ==> forall i :: r.value < i < |msgs| ==> !Writes(first, second, msgs[i], side)
    decreases |msgs|
  {
    if msgs == [] then None
    else if Writes(first, second, msgs[|msgs| - 1], side) then Some(|msgs| - 1)
    else LastWriter(first, second, msgs[..|msgs| - 1], side)
  }

  /** After any run of messages a refund is what its last writer sent, in whatever phase that was. */
  lemma {:induction false} RefundIsLastWritten(t: Deal, msgs: seq<Message>, side: Side)
    ensures Refund(DeliverAll(t, msgs).papers, side)
         == match LastWriter(t.swap.first, t.swap.second, msgs, side) case None => Refund(t.papers, side) case Some(i) => msgs[i].rev
    decreases |msgs|
  {
    if msgs != [] {
      var front, last := msgs[..|msgs| - 1], msgs[|msgs| - 1];
      RefundIsLastWritten(t, front, side);
      OneRefund(DeliverAll(t, front), last, side);
      hide Deliver, Refund, Writes;
    }
  }

  lemma OneRefund(t: Deal, msg: Message, side: Side)
    ensures Refund(Deliver(t, msg).papers, side)
         == if Writes(t.swap.first, t.swap.second, msg, side) then msg.rev else Refund(t.papers, side)
  {
    hide Confirm;
  }

  /** A later message that would overwrite a refund that the other party has signed. */
  predicate Overwrites(first: Party, second: Party, msg: Message, side: Side)
  {
    var own, other := if side.First? then first else second, if side.First? then second else first;
    || (msg.Created? && msg.sender == own.source && (side.First? ==> first.source != second.source))
    || (msg.Signed? && msg.sender == other.dest && (side.Second? ==> first.dest != second.dest))
  }

  /**
   A refund that the other party has signed is still the one filed exactly if since then its owner
   has sent no creation message, and the other party has not signed again.
   */
  lemma SignedSurvives(t: Deal, msgs: seq<Message>, i: nat, side: Side)
    requires i < |msgs| && msgs[i].Signed? && Writes(t.swap.first, t.swap.second, msgs[i], side)
    ensures var a, b := t.swap.first, t.swap.second;
            && (LastWriter(a, b, msgs, side) == Some(i) <==> forall j :: i < j < |msgs| ==> !Overwrites(a, b, msgs[j], side))
            && (LastWriter(a, b, msgs, side) == Some(i) ==> Refund(DeliverAll(t, msgs).papers, side) == msgs[i].rev)
  {
    RefundIsLastWritten(t, msgs, side);
    forall j | i < j < |msgs|
      ensures Overwrites(t.swap.first, t.swap.second, msgs[j], side) <==> Writes(t.swap.first, t.swap.second, msgs[j], side)
    {
    }
    hide DeliverAll, Overwrites, Writes;
  }

  /** Outside the creation phase such a message changes the papers all the same, and no phase shows it. */
  lemma LateCreatedOverwrites(t: Deal, pay: Bytes, rev: Bytes)
    requires t.swap.state != Phase(2) && t.swap.first.source != t.swap.second.source
    ensures var r := Deliver(t, Created(t.swap.first.source, pay, rev));
            r.swap == t.swap && r.papers == t.papers.(pay1 := pay, rev1 := rev)
    ensures var r := Deliver(t, Created(t.swap.second.source, pay, rev));
            r.swap == t.swap && r.papers == t.papers.(pay2 := pay, rev2 := rev)
  {
  }
}
