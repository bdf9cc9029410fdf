/** The books of the three transmit mailboxes (stm32f10x_can.c): what every call of the driver and every event of
    the controller does to them, and what whole runs keep.

    Every accepted frame is delivered, failed or pending. A call takes the events of the controller as a
    parameter, one list for each gap between register accesses. */
module CanAccounts {
  import opened Common
  import opened CanFrame

  /** One thing the controller does on its own: it ends the transmission of a mailbox. */
  datatype Event = Complete(mailbox: nat, ok: bool, arbitrationLost: bool, error: bool)

  /** How the last transmission of a mailbox stands. */
  datatype Outcome = Never | Waiting | Delivered | NotDelivered

  const NO_MAILBOX := 4
  const STATUS_FAILED := 0
  const STATUS_OK := 1
  const STATUS_PENDING := 2

  // ---- the accounts ----------------------------------------------------------------------

  ghost function Single(o: Option<Frame>): multiset<Frame> {
    if o.Some? then multiset{o.value} else multiset{}
  }

  /** What a user of the driver keeps book of: the frame each mailbox holds, how each mailbox's
      last transmission ended, whether its flags were cleared since, and the totals. */
  datatype Accounts = Accounts(
    held: seq<Option<Frame>>, outcome: seq<Outcome>, wiped: seq<bool>,
    accepted: multiset<Frame>, delivered: multiset<Frame>, failed: multiset<Frame>)
  {
    ghost predicate Sized() {
      |held| == |outcome| == |wiped| == 3
    }

    ghost function Pending(): multiset<Frame>
      requires Sized()
    {
      Single(held[0]) + Single(held[1]) + Single(held[2])
    }

    /** Every accepted frame is delivered, failed or pending, each as often as it was accepted. */
    ghost predicate Balanced() {
      Sized() && accepted == delivered + failed + Pending()
    }

    ghost function Settled(i: nat, ok: bool): Accounts
      requires Sized() && i < 3
    {
      Accounts(
        held[i := None], outcome[i := if ok then Delivered else NotDelivered], wiped[i := false], accepted,
        if ok then delivered + Single(held[i]) else delivered,
        if ok then failed else failed + Single(held[i]))
    }

    ghost function Taken(i: nat, f: Frame): Accounts
      requires Sized() && i < 3
    {
      Accounts(
        held[i := Some(f)], outcome[i := Waiting], wiped[i := false], accepted + multiset{f}, delivered, failed)
    }

    /** A write of TSR has cleared the flags of every mailbox that showed them when TSR was read. */
    ghost function Wiped(seen: Accounts): Accounts
      requires Sized() && seen.Sized()
    {
      this.(wiped := [wiped[0] || seen.Shows(0), wiped[1] || seen.Shows(1), wiped[2] || seen.Shows(2)])
    }

    predicate Shows(i: nat)
      requires Sized() && i < 3
    {
      !wiped[i] && outcome[i] in {Delivered, NotDelivered}
    }

    /** What CAN_TransmitStatus answers. A number that is no mailbox, such as the answer of
        CAN_Transmit when it found none, reads as pending. */
    function Status(i: nat): nat
      requires Sized()
    {
      if i >= 3 || outcome[i] == Waiting then STATUS_PENDING
      else if outcome[i] == Delivered && !wiped[i] then STATUS_OK
      else STATUS_FAILED
    }

    /** An event acts on a busy mailbox only. */
    ghost function On(e: Event): (a: Accounts)
      requires Sized()
      ensures a.Sized()
    {
      if e.mailbox < 3 && held[e.mailbox].Some? then Settled(e.mailbox, e.ok) else this
    }

    /** After the events of the first `k` gaps between register accesses. */
    ghost function Through(hw: seq<seq<Event>>, k: nat): (a: Accounts)
      requires Sized() && k <= |hw|
      ensures a.Sized()
      decreases k
    {
      if k == 0 then this else Through(hw, k - 1).After(hw[k - 1])
    }

    ghost function After(events: seq<Event>): (a: Accounts)
      requires Sized()
      ensures a.Sized()
      decreases |events|
    {
      if events == [] then this else On(events[0]).After(events[1..])
    }
  }

  /** The end of a transmission is counted as the flags will tell it. */
  lemma EndIsCounted(a: Accounts, e: Event)
    requires a.Sized() && e.mailbox < 3 && a.held[e.mailbox].Some?
    ensures var z, f := a.On(e), multiset{a.held[e.mailbox].value};
            && z.held == a.held[e.mailbox := None] && z.accepted == a.accepted
            && z.delivered == a.delivered + (if e.ok then f else multiset{})
            && z.failed == a.failed + (if e.ok then multiset{} else f)
            && z.outcome[e.mailbox] == (if e.ok then Delivered else NotDelivered)
  {
  }

  lemma MoveOut(a: multiset<Frame>, b: multiset<Frame>, c: multiset<Frame>, none: multiset<Frame>)
    requires none == multiset{}
    ensures none + b + c + a == a + b + c
    ensures b + none + c + a == b + a + c
    ensures b + c + none + a == b + c + a
  {
  }

  /** Emptying a mailbox takes exactly its frame from the pending ones. */
  lemma PendingReleased(a: Accounts, i: nat, ok: bool)
    requires a.Sized() && i < 3
    ensures a.Settled(i, ok).Pending() + Single(a.held[i]) == a.Pending()
  {
    var x, y, z := Single(a.held[0]), Single(a.held[1]), Single(a.held[2]);
    if i == 0 {
      MoveOut(x, y, z, Single(None));
    } else if i == 1 {
      MoveOut(y, x, z, Single(None));
    } else {
      MoveOut(z, x, y, Single(None));
    }
  }

  lemma PendingTaken(a: Accounts, i: nat, f: Frame)
    requires a.Sized() && i < 3 && a.held[i].None?
    ensures a.Taken(i, f).Pending() == a.Pending() + multiset{f}
  {
    var x, y, z := Single(a.held[0]), Single(a.held[1]), Single(a.held[2]);
    if i == 0 {
      MoveOut(multiset{f}, y, z, x);
    } else if i == 1 {
      MoveOut(multiset{f}, x, z, y);
    } else {
      MoveOut(multiset{f}, x, y, z);
    }
  }

  lemma Transfer(
    total: multiset<Frame>, d: multiset<Frame>, f: multiset<Frame>, p: multiset<Frame>, q: multiset<Frame>,
    x: multiset<Frame>)
    requires total == d + f + p && q + x == p
    ensures total == d + x + f + q
    ensures total == d + (f + x) + q
  {
  }

  lemma SettledBalanced(a: Accounts, i: nat, ok: bool)
    requires a.Balanced() && i < 3
    ensures a.Settled(i, ok).Balanced()
  {
    PendingReleased(a, i, ok);
    Transfer(a.accepted, a.delivered, a.failed, a.Pending(), a.Settled(i, ok).Pending(), Single(a.held[i]));
  }

  lemma TakenBalanced(a: Accounts, i: nat, f: Frame)
    requires a.Balanced() && i < 3 && a.held[i].None?
    ensures a.Taken(i, f).Balanced()
  {
    PendingTaken(a, i, f);
  }

  /** There are never more than three frames pending. */
  lemma PendingBound(a: Accounts)
    requires a.Sized()
    ensures |a.Pending()| <= 3
  {
    assert |Single(a.held[0])| <= 1 && |Single(a.held[1])| <= 1 && |Single(a.held[2])| <= 1;
  }

  /** A mailbox is found empty exactly when it was, or an event has ended its transmission. */
  lemma {:induction false} AfterHeld(a: Accounts, events: seq<Event>, i: nat)
    requires a.Sized() && i < 3
    ensures a.After(events).held[i] ==
            if exists e :: e in events && e.mailbox == i then None else a.held[i]
    decreases |events|
  {
    if events != [] {
      var e := events[0];
      AfterHeld(a.On(e), events[1..], i);
      assert events == [e] + events[1..];
    }
  }

  /** Events of the controller never take a frame and never lose one. */
  lemma {:induction false} AfterBalanced(a: Accounts, events: seq<Event>)
    requires a.Balanced()
    ensures a.After(events).Balanced() && a.After(events).accepted == a.accepted
    decreases |events|
  {
    if events != [] {
      var e := events[0];
      if e.mailbox < 3 && a.held[e.mailbox].Some? {
        SettledBalanced(a, e.mailbox, e.ok);
      }
      AfterBalanced(a.On(e), events[1..]);
    }
  }

  lemma {:induction false} ThroughBalanced(a: Accounts, hw: seq<seq<Event>>, k: nat)
    requires a.Balanced() && k <= |hw|
    ensures a.Through(hw, k).Balanced() && a.Through(hw, k).accepted == a.accepted
  {
    if k > 0 {
      ThroughBalanced(a, hw, k - 1);
      AfterBalanced(a.Through(hw, k - 1), hw[k - 1]);
    }
  }

  /** Events leave an idle mailbox's record alone. */
  lemma {:induction false} AfterIdle(a: Accounts, events: seq<Event>, i: nat)
    requires a.Sized() && i < 3 && a.held[i].None?
    ensures a.After(events).outcome[i] == a.outcome[i] && a.After(events).wiped[i] == a.wiped[i]
    ensures a.After(events).held[i].None?
    decreases |events|
  {
    if events != [] {
      AfterIdle(a.On(events[0]), events[1..], i);
    }
  }

  /** Out of reset nothing was accepted. */
  ghost function Fresh(): Accounts {
    Accounts([None, None, None], [Never, Never, Never], [false, false, false], multiset{}, multiset{}, multiset{})
  }

  // ---- the choice of a mailbox -----------------------------------------------------------

  /** How often a choice has looked at TSR. */
  function Looks(mailbox: nat): (n: nat)
    ensures 1 <= n <= 3
  {
    if mailbox < 3 then mailbox + 1 else 3
  }

  /** What the look at mailbox `i` sees in it, after `i + 1` gaps. */
  ghost function Look(a: Accounts, hw: seq<seq<Event>>, i: nat): Option<Frame>
    requires a.Sized() && |hw| >= 3 && i < 3
  {
    a.Through(hw, i + 1).held[i]
  }

  /** Each of the three looks of a send sees a busy mailbox. */
  ghost predicate AllBusy(a: Accounts, hw: seq<seq<Event>>)
    requires a.Sized() && |hw| >= 3
  {
    Look(a, hw, 0).Some? && Look(a, hw, 1).Some? && Look(a, hw, 2).Some?
  }

  /** What CAN_Transmit may answer: the first mailbox whose look found it empty, or that there is none, exactly
      when each look saw a busy one. */
  ghost predicate Picked(a: Accounts, hw: seq<seq<Event>>, mailbox: nat)
    requires a.Sized() && |hw| >= 3
  {
    if mailbox < 3 then Look(a, hw, mailbox).None? && forall j :: 0 <= j < mailbox ==> Look(a, hw, j).Some?
    else mailbox == NO_MAILBOX && AllBusy(a, hw)
  }

  ghost function Choice(a: Accounts, hw: seq<seq<Event>>): (mailbox: nat)
    requires a.Sized() && |hw| >= 3
    ensures mailbox < 3 || mailbox == NO_MAILBOX
  {
    FirstIdle(Look(a, hw, 0), Look(a, hw, 1), Look(a, hw, 2))
  }

  ghost function FirstIdle(x: Option<Frame>, y: Option<Frame>, z: Option<Frame>): (mailbox: nat)
    ensures mailbox < 3 || mailbox == NO_MAILBOX
  {
    if x.None? then 0 else if y.None? then 1 else if z.None? then 2 else NO_MAILBOX
  }

  /** That answer always exists and is unique. */
  lemma ChoiceIsPicked(a: Accounts, hw: seq<seq<Event>>, mailbox: nat)
    requires a.Sized() && |hw| >= 3
    ensures Picked(a, hw, mailbox) <==> mailbox == Choice(a, hw)
  {
    PickedByLooks(a, hw, mailbox, Look(a, hw, 0), Look(a, hw, 1), Look(a, hw, 2));
  }

  lemma PickedByLooks(
    a: Accounts, hw: seq<seq<Event>>, mailbox: nat, x: Option<Frame>, y: Option<Frame>, z: Option<Frame>)
    requires a.Sized() && |hw| >= 3
    requires x == Look(a, hw, 0) && y == Look(a, hw, 1) && z == Look(a, hw, 2)
    ensures Picked(a, hw, mailbox) <==> mailbox == FirstIdle(x, y, z)
  {
  }

  /** An idle mailbox stays idle, so a call that begins with one finds one. */
  lemma IdleIsFound(a: Accounts, hw: seq<seq<Event>>, i: nat)
    requires a.Sized() && |hw| >= 3 && i < 3 && a.held[i].None?
    ensures Look(a, hw, i).None?
  {
    ChosenStaysEmpty(a, hw, i, 0, i + 1);
  }

  // ---- whole runs ------------------------------------------------------------------------

  datatype Op =
    | Send(m: TxMsg, hw: seq<seq<Event>>)
    | Cancel(mailbox: nat, before: seq<Event>, between: seq<Event>)
    | Poll(i: nat)
    | Idle(events: seq<Event>)

  predicate Sound(op: Op) {
    op.Send? ==> ValidTx(op.m) && |op.hw| == 10
  }

  /** A send into mailbox `c`: `c + 1` looks, six writes, and the request. */
  ghost function Sent(a: Accounts, m: TxMsg, hw: seq<seq<Event>>, c: nat): (a': Accounts)
    requires a.Sized() && |hw| == 10 && c < 3
    ensures a'.Sized()
  {
    a.Through(hw, c + 8).Taken(c, FrameOfTx(m))
  }

  /** One call, with the events that happen during it. */
  ghost function Do(a: Accounts, op: Op): (a': Accounts)
    requires a.Sized() && Sound(op)
    ensures a'.Sized()
  {
    match op
    case Send(m, hw) =>
      var c := Choice(a, hw);
      if c < 3 then Sent(a, m, hw, c) else a.Through(hw, 3)
    case Cancel(i, before, between) =>
      if i < 3 then a.After(before).After(between).Wiped(a.After(before)) else a
    case Poll(_) => a
    case Idle(events) => a.After(events)
  }

  ghost function RunAll(a: Accounts, ops: seq<Op>): (a': Accounts)
    requires a.Sized() && forall op :: op in ops ==> Sound(op)
    ensures a'.Sized()
    decreases |ops|
  {
    if ops == [] then a else RunAll(Do(a, ops[0]), ops[1..])
  }

  /** The frames a run hands to the controller: one for each send that did not see three busy mailboxes. */
  ghost function Handed(a: Accounts, ops: seq<Op>): multiset<Frame>
    requires a.Sized() && forall op :: op in ops ==> Sound(op)
    decreases |ops|
  {
    if ops == [] then multiset{} else HandedBy(a, ops[0]) + Handed(Do(a, ops[0]), ops[1..])
  }

  ghost function HandedBy(a: Accounts, op: Op): multiset<Frame>
    requires a.Sized() && Sound(op)
  {
    if op.Send? && !AllBusy(a, op.hw) then multiset{FrameOfTx(op.m)} else multiset{}
  }

  lemma SendIs(a: Accounts, m: TxMsg, hw: seq<seq<Event>>)
    requires a.Sized() && ValidTx(m) && |hw| == 10
    ensures Choice(a, hw) == NO_MAILBOX ==> Do(a, Send(m, hw)) == a.Through(hw, 3)
    ensures Choice(a, hw) != NO_MAILBOX ==>
              Do(a, Send(m, hw)) == a.Through(hw, Choice(a, hw) + 8).Taken(Choice(a, hw), FrameOfTx(m))
  {
  }

  /** The mailbox chosen is still empty when the request bit is set. */
  lemma ChosenStaysEmpty(a: Accounts, hw: seq<seq<Event>>, i: nat, j: nat, k: nat)
    requires a.Sized() && i < 3 && j <= k <= |hw|
    requires a.Through(hw, j).held[i].None?
    ensures a.Through(hw, k).held[i].None?
    decreases k
  {
    if j < k {
      ChosenStaysEmpty(a, hw, i, j, k - 1);
      AfterIdle(a.Through(hw, k - 1), hw[k - 1], i);
    }
  }

  lemma SendBalanced(a: Accounts, m: TxMsg, hw: seq<seq<Event>>, c: nat)
    requires a.Balanced() && |hw| == 10 && c < 3 && Look(a, hw, c).None?
    ensures Sent(a, m, hw, c).Balanced() && Sent(a, m, hw, c).accepted == a.accepted + multiset{FrameOfTx(m)}
  {
    ThroughBalanced(a, hw, c + 8);
    ChosenStaysEmpty(a, hw, c, c + 1, c + 8);
    TakenBalanced(a.Through(hw, c + 8), c, FrameOfTx(m));
  }

  lemma SendDone(a: Accounts, op: Op)
    requires a.Balanced() && Sound(op) && op.Send?
    ensures Do(a, op).Balanced()
    ensures Do(a, op).accepted == a.accepted + HandedBy(a, op)
  {
    var Send(m, hw) := op;
    var c := Choice(a, hw);
    ChoiceIsPicked(a, hw, c);
    if c < 3 {
      SendBalanced(a, m, hw, c);
    } else {
      ThroughBalanced(a, hw, 3);
    }
  }

  lemma CancelBalanced(a: Accounts, before: seq<Event>, between: seq<Event>)
    requires a.Balanced()
    ensures var z := a.After(before).After(between).Wiped(a.After(before));
            z.Balanced() && z.accepted == a.accepted
  {
    AfterBalanced(a, before);
    AfterBalanced(a.After(before), between);
  }

  lemma DoBalanced(a: Accounts, op: Op)
    requires a.Balanced() && Sound(op)
    ensures Do(a, op).Balanced()
    ensures Do(a, op).accepted == a.accepted + HandedBy(a, op)
  {
    match op
    case Send(_, _) => SendDone(a, op);
    case Cancel(_, before, between) => CancelBalanced(a, before, between);
    case Poll(_) =>
    case Idle(events) => AfterBalanced(a, events);
  }

  /** Anywhere in a run: the frame of a send is accepted if and only if the looks of that call do not see three
      busy mailboxes, and with fewer than three frames pending it is accepted. */
  lemma SendsThatFail(a: Accounts, before: seq<Op>, m: TxMsg, hw: seq<seq<Event>>)
    requires a.Balanced() && ValidTx(m) && |hw| == 10 && forall op :: op in before ==> Sound(op)
    ensures var b := RunAll(a, before); var z := Do(b, Send(m, hw));
            && z.accepted == b.accepted + (if AllBusy(b, hw) then multiset{} else multiset{FrameOfTx(m)})
            && (|b.Pending()| < 3 ==> !AllBusy(b, hw))
  {
    Conservation(a, before);
    var b := RunAll(a, before);
    SendDone(b, Send(m, hw));
    if |b.Pending()| < 3 {
      SomeIdle(b, hw);
    }
  }

  lemma SomeIdle(a: Accounts, hw: seq<seq<Event>>)
    requires a.Sized() && |hw| >= 3 && |a.Pending()| < 3
    ensures !AllBusy(a, hw)
  {
    assert forall o: Option<Frame> {:trigger Single(o)} :: o.Some? ==> |Single(o)| == 1;
    if a.held[0].None? {
      IdleIsFound(a, hw, 0);
    } else if a.held[1].None? {
      IdleIsFound(a, hw, 1);
    } else {
      IdleIsFound(a, hw, 2);
    }
  }

  /** Over every run and every interleaving: the frames handed over are the frames delivered, failed
      or pending, with multiplicity, and at most three are pending. */
  lemma {:induction false} Conservation(a: Accounts, ops: seq<Op>)
    requires a.Balanced() && forall op :: op in ops ==> Sound(op)
    ensures var z := RunAll(a, ops);
            && a.accepted + Handed(a, ops) == z.delivered + z.failed + z.Pending()
            && z.Balanced() && |z.Pending()| <= 3
    decreases |ops|
  {
    if ops == [] {
      PendingBound(a);
    } else {
      DoBalanced(a, ops[0]);
      Conservation(Do(a, ops[0]), ops[1..]);
    }
  }

  /** Cancelling any mailbox makes a delivered frame of an idle mailbox read as failed, because the
      write of TSR clears the completion flags that were read. */
  lemma CancelHidesDelivery(a: Accounts, i: nat, j: nat, before: seq<Event>, between: seq<Event>)
    requires a.Sized() && i < 3 && j < 3
    requires a.held[i].None? && a.outcome[i] == Delivered && !a.wiped[i]
    ensures a.Status(i) == STATUS_OK
    ensures Do(a, Cancel(j, before, between)).Status(i) == STATUS_FAILED
    ensures Do(a, Cancel(j, before, between)).outcome[i] == Delivered
  {
    AfterIdle(a, before, i);
    AfterIdle(a.After(before), between, i);
  }

  // ---- what no event touches -------------------------------------------------------------

  /** No event of the list ends the transmission of mailbox `i`. */
  ghost predicate Spares(events: seq<Event>, i: nat) {
    forall e :: e in events ==> e.mailbox != i
  }

  /** Nothing the controller does during a call ends the transmission of mailbox `i`. */
  ghost predicate CallSpares(op: Op, i: nat) {
    match op
    case Send(_, hw) => forall k :: 0 <= k < |hw| ==> Spares(hw[k], i)
    case Cancel(_, before, between) => Spares(before, i) && Spares(between, i)
    case Poll(_) => true
    case Idle(events) => Spares(events, i)
  }

  lemma {:induction false} GapsKeep(a: Accounts, hw: seq<seq<Event>>, k: nat, i: nat)
    requires a.Sized() && i < 3 && k <= |hw| && forall j :: 0 <= j < |hw| ==> Spares(hw[j], i)
    ensures a.Through(hw, k).held[i] == a.held[i]
    decreases k
  {
    if k > 0 {
      GapsKeep(a, hw, k - 1, i);
      AfterHeld(a.Through(hw, k - 1), hw[k - 1], i);
    }
  }

  lemma CallKeeps(a: Accounts, op: Op, i: nat)
    requires a.Sized() && i < 3 && Sound(op) && a.held[i].Some? && CallSpares(op, i)
    ensures Do(a, op).held[i] == a.held[i]
  {
    match op
    case Send(m, hw) =>
      var c := Choice(a, hw);
      if c < 3 {
        GapsKeep(a, hw, c + 1, i);
        ChoiceIsPicked(a, hw, c);
        GapsKeep(a, hw, c + 8, i);
      } else {
        GapsKeep(a, hw, 3, i);
      }
    case Cancel(_, before, between) =>
      AfterHeld(a, before, i);
      AfterHeld(a.After(before), between, i);
    case Poll(_) =>
    case Idle(events) => AfterHeld(a, events, i);
  }

  /** Over every run: whatever is sent, cancelled or polled, a mailbox keeps the very frame it holds until the
      controller ends its transmission. */
  lemma {:induction false} HeldOverRuns(a: Accounts, ops: seq<Op>, i: nat)
    requires a.Sized() && i < 3 && a.held[i].Some?
    requires forall op :: op in ops ==> Sound(op) && CallSpares(op, i)
    ensures RunAll(a, ops).held[i] == a.held[i]
    decreases |ops|
  {
    if ops != [] {
      CallKeeps(a, ops[0], i);
      HeldOverRuns(Do(a, ops[0]), ops[1..], i);
    }
  }
}
