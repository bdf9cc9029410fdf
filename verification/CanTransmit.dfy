/** The three transmit mailboxes, shared between the driver and the CAN controller
    (stm32f10x_can.c).

    The controller runs beside the driver: before every single register access of a driver
    function it may finish any pending transmission. A call takes those events as a parameter, one
    list for each access, so what is proved of a call holds for every interleaving. The ghost
    fields keep the accounts: every accepted frame is delivered, failed or pending. */
module CanTransmit {
  import opened Common
  import opened Words
  import opened CanFrame
  import opened CanAccounts

  // ---- bits of TSR: eight per mailbox, and the empty flags at 26 --------------------------

  function RQCP(i: nat): nat { 8 * i }
  function TXOK(i: nat): nat { 8 * i + 1 }
  function ALST(i: nat): nat { 8 * i + 2 }
  function TERR(i: nat): nat { 8 * i + 3 }
  function ABRQ(i: nat): nat { 8 * i + 7 }
  function TME(i: nat): nat { 26 + i }

  // ---- the status flags ------------------------------------------------------------------

  /** The flags of one mailbox that the driver's functions look at. */
  datatype Flags = Flags(empty: bool, completed: bool, ok: bool)

  function FlagsOf(tsr: Word, i: nat): Flags
    requires i < 3
  {
    Flags(tsr[TME(i)], tsr[RQCP(i)], tsr[TXOK(i)])
  }

  function Finished(tsr: Word, e: Event): Word
    requires e.mailbox < 3
  {
    var i := e.mailbox;
    tsr[RQCP(i) := true][TXOK(i) := e.ok][ALST(i) := e.arbitrationLost][TERR(i) := e.error]
       [ABRQ(i) := false][TME(i) := true]
  }

  function Requested(tsr: Word, i: nat): Word
    requires i < 3
  {
    tsr[RQCP(i) := false][TXOK(i) := false][ALST(i) := false][TERR(i) := false][TME(i) := false]
  }

  /** The register after a write of `v`: a one clears a completion flag and, with RQCP, all four of
      its mailbox; a one sets the abort request of a busy mailbox; the other bits are read-only. */
  function Written(tsr: Word, v: Word): Word {
    seq(32, k requires 0 <= k < 32 =>
      if k < 24 && k % 8 < 4 then tsr[k] && !v[k] && !v[k - k % 8]
      else if k < 24 && k % 8 == 7 then tsr[k] || (v[k] && !tsr[TME(k / 8)])
      else tsr[k])
  }

  /** No abort request came up. */
  predicate NoNewAbort(before: Word, after: Word) {
    forall j :: 0 <= j < 3 && after[ABRQ(j)] ==> before[ABRQ(j)]
  }

  lemma FinishedAborts(tsr: Word, e: Event)
    requires e.mailbox < 3
    ensures NoNewAbort(tsr, Finished(tsr, e))
  {
  }

  /** A write-back with one abort bit requests the abort of that mailbox, if it is busy. */
  lemma AbortRequested(tsr: Word, read: Word, i: nat, j: nat)
    requires i < 3 && j < 3
    ensures Written(tsr, Or(read, Mask(ABRQ(i), 1)))[ABRQ(j)] ==
            (tsr[ABRQ(j)] || (!tsr[TME(j)] && (read[ABRQ(j)] || j == i)))
  {
    assert ABRQ(j) / 8 == j && ABRQ(j) % 8 == 7;
  }

  lemma FinishedFlags(tsr: Word, e: Event, j: nat)
    requires e.mailbox < 3 && j < 3
    ensures FlagsOf(Finished(tsr, e), j) == if j == e.mailbox then Flags(true, true, e.ok) else FlagsOf(tsr, j)
  {
  }

  lemma RequestedFlags(tsr: Word, i: nat, j: nat)
    requires i < 3 && j < 3
    ensures FlagsOf(Requested(tsr, i), j) == if j == i then Flags(false, false, false) else FlagsOf(tsr, j)
  {
  }

  /** Writing back a register value that was read earlier wipes the completion flags of every
      mailbox that showed them at the read. */
  lemma WrittenFlags(tsr: Word, v: Word, j: nat)
    requires j < 3
    ensures FlagsOf(Written(tsr, v), j) ==
            Flags(tsr[TME(j)], tsr[RQCP(j)] && !v[RQCP(j)], tsr[TXOK(j)] && !v[TXOK(j)] && !v[RQCP(j)])
  {
  }

  lemma SettledRecord(a: Accounts, e: Event, j: nat)
    requires a.Sized() && e.mailbox < 3 && j < 3
    ensures var z := a.Settled(e.mailbox, e.ok);
            if j == e.mailbox
            then z.held[j] == None && z.outcome[j] == (if e.ok then Delivered else NotDelivered) && !z.wiped[j]
            else z.held[j] == a.held[j] && z.outcome[j] == a.outcome[j] && z.wiped[j] == a.wiped[j]
  {
  }

  /** What the flags say of a mailbox, and what its words hold. */
  ghost predicate BoxValid(f: Flags, b: Mailbox, h: Option<Frame>, o: Outcome, wiped: bool) {
    && f.empty == h.None?
    && b.ir[0] == h.Some?
    && (h.Some? ==> FrameOf(b) == h.value)
    && (h.Some? <==> o == Waiting)
    && f.completed == (!wiped && o in {Delivered, NotDelivered})
    && f.ok == (!wiped && o == Delivered)
  }

  class Transmitter {
    var TSR: Word
    var boxes: seq<Mailbox>
    ghost var accounts: Accounts

    /** Registers and accounts agree: a mailbox is busy exactly while it holds an accepted frame,
        its words still spell that frame, and its flags tell the outcome unless a write has
        cleared them. No accepted frame is lost or duplicated. */
    ghost predicate Valid()
      reads this
    {
      && |boxes| == 3 && accounts.Balanced()
      && forall i :: 0 <= i < 3 ==> BoxOk(i)
    }

    ghost predicate BoxOk(i: nat)
      requires i < 3 && |boxes| == 3 && accounts.Sized()
      reads this
    {
      BoxValid(FlagsOf(TSR, i), boxes[i], accounts.held[i], accounts.outcome[i], accounts.wiped[i])
    }

    /** Out of reset: three empty mailboxes, whatever their words hold. */
    constructor (words: seq<Mailbox>)
      requires |words| == 3 && forall i :: 0 <= i < 3 ==> !words[i].ir[0]
      ensures Valid() && accounts == Fresh()
    {
      TSR := Mask(26, 3);
      boxes := words;
      accounts := Fresh();
    }

    /** The controller acts. */
    method Controller(events: seq<Event>)
      requires Valid()
      modifies this
      ensures Valid() && accounts == old(accounts).After(events) && NoNewAbort(old(TSR), TSR)
      ensures forall i :: 0 <= i < 3 && old(accounts).held[i].None? ==> boxes[i] == old(boxes)[i]
      ensures forall i :: 0 <= i < 3 && old(accounts).held[i].None? ==> accounts.held[i].None?
    {
      for k := 0 to |events|
        invariant Valid() && accounts.After(events[k..]) == old(accounts).After(events) && NoNewAbort(old(TSR), TSR)
        invariant forall i :: 0 <= i < 3 && old(accounts).held[i].None? ==>
          boxes[i] == old(boxes)[i] && accounts.held[i].None?
      {
        assert events[k..][0] == events[k] && events[k..][1..] == events[k + 1..];
        Act(events[k]);
      }
    }

    method Act(e: Event)
      requires Valid()
      modifies this
      ensures Valid() && accounts == old(accounts).On(e) && NoNewAbort(old(TSR), TSR)
      ensures forall i :: 0 <= i < 3 && old(accounts).held[i].None? ==>
        boxes[i] == old(boxes)[i] && accounts.held[i].None?
    {
      if e.mailbox < 3 {
        assert BoxOk(e.mailbox);
        ghost var a := accounts;
        if boxes[e.mailbox].ir[0] {
          Finish(e);
          assert a.On(e) == a.Settled(e.mailbox, e.ok);
          forall i | 0 <= i < 3 && a.held[i].None? ensures accounts.held[i].None? {
            SettledRecord(a, e, i);
          }
        } else {
          assert a.On(e) == a;
        }
      }
    }

    method Finish(e: Event)
      requires Valid() && e.mailbox < 3 && accounts.held[e.mailbox].Some?
      modifies this
      ensures Valid() && accounts == old(accounts).Settled(e.mailbox, e.ok) && NoNewAbort(old(TSR), TSR)
      ensures forall i :: 0 <= i < 3 && i != e.mailbox ==> boxes[i] == old(boxes)[i]
    {
      var i := e.mailbox;
      FinishedAborts(TSR, e);
      TSR := Finished(TSR, e);
      boxes := boxes[i := boxes[i].(ir := boxes[i].ir[0 := false])];
      SettledBalanced(accounts, i, e.ok);
      accounts := accounts.Settled(i, e.ok);
      forall j | 0 <= j < 3 ensures BoxOk(j) {
        assert old(BoxOk(j));
        FinishedFlags(old(TSR), e, j);
        SettledRecord(old(accounts), e, j);
      }
    }

    /** The driver writes the words of a mailbox. Every such write must find the mailbox without a
        pending frame and leave the request bit clear. */
    method Store(i: nat, b: Mailbox)
      requires Valid() && i < 3
      requires accounts.held[i].None? && !b.ir[0]
      modifies this`boxes
      ensures Valid() && boxes == old(boxes)[i := b]
    {
      boxes := boxes[i := b];
      forall j | 0 <= j < 3 ensures BoxOk(j) {
        assert old(BoxOk(j));
      }
    }

    /** The driver sets the request bit; the controller takes the frame. */
    method Request(i: nat)
      requires Valid() && i < 3 && accounts.held[i].None?
      modifies this
      ensures Valid() && accounts == old(accounts).Taken(i, FrameOf(old(boxes)[i]))
    {
      ghost var f := FrameOf(boxes[i]);
      RequestBitIsSeparate(boxes[i], true);
      boxes := boxes[i := boxes[i].(ir := Or(boxes[i].ir, TXRQ))];
      assert boxes[i].ir == old(boxes)[i].ir[0 := true];
      TSR := Requested(TSR, i);
      TakenBalanced(accounts, i, f);
      accounts := accounts.Taken(i, f);
      forall j | 0 <= j < 3 ensures BoxOk(j) {
        assert old(BoxOk(j));
        RequestedFlags(old(TSR), i, j);
      }
    }

    /** The three looks at the empty flags. The controller may act before each of them. */
    method Select(hw: seq<seq<Event>>) returns (mailbox: nat)
      requires Valid() && |hw| >= 3
      modifies this
      ensures Valid()
      ensures mailbox == Choice(old(accounts), hw)
      ensures accounts == old(accounts).Through(hw, Looks(mailbox))
      ensures mailbox < 3 ==> accounts.held[mailbox].None?
    {
      ghost var a := accounts;
      var empty := LookAt(0, hw, a);
      if empty {
        return 0;
      }
      empty := LookAt(1, hw, a);
      if empty {
        return 1;
      }
      empty := LookAt(2, hw, a);
      if empty {
        return 2;
      }
      return NO_MAILBOX;
    }

    /** The controller acts, and then the empty flag of mailbox `i` is read. */
    method LookAt(i: nat, hw: seq<seq<Event>>, ghost a: Accounts) returns (empty: bool)
      requires Valid() && i < 3 && |hw| >= 3 && a.Sized() && accounts == a.Through(hw, i)
      modifies this
      ensures Valid() && accounts == a.Through(hw, i + 1)
      ensures empty == Look(a, hw, i).None? == accounts.held[i].None?
    {
      Controller(hw[i]);
      assert BoxOk(i);
      empty := TSR[TME(i)];
    }

    /** Filling the chosen mailbox, one register access at a time. */
    method Fill(i: nat, m: TxMsg, hw: seq<seq<Event>>, k: nat, ghost a: Accounts)
      requires Valid() && ValidTx(m) && i < 3 && accounts.held[i].None? && k + 7 <= |hw|
      requires a.Sized() && accounts == a.Through(hw, k)
      modifies this
      ensures Valid() && accounts == a.Through(hw, k + 7).Taken(i, FrameOfTx(m))
    {
      ghost var b := boxes[i];
      FillId(i, m, hw, k, a);
      FillPayload(i, m, hw, k + 2, a);
      Pause(hw, k + 6, a, i);
      FilledHolds(b, m);
      Request(i);
    }

    method FillId(i: nat, m: TxMsg, hw: seq<seq<Event>>, k: nat, ghost a: Accounts)
      requires Valid() && ValidTx(m) && i < 3 && accounts.held[i].None? && k + 2 <= |hw|
      requires a.Sized() && accounts == a.Through(hw, k)
      modifies this
      ensures Valid() && accounts == a.Through(hw, k + 2)
      ensures accounts.held[i].None? && boxes[i] == old(boxes)[i].(ir := Filled(old(boxes)[i], m).ir)
    {
      ghost var b := boxes[i];
      assert BoxOk(i);
      Put(i, boxes[i].(ir := And(boxes[i].ir, TXRQ)), hw, k, a);
      IdBitsLeaveRequest(m);
      if m.ide == ID_STANDARD {
        Put(i, boxes[i].(ir := Or(boxes[i].ir, Or(Shl(Of(m.stdId), 21), Of(m.rtr)))), hw, k + 1, a);
      } else {
        Put(i, boxes[i].(ir := Or(boxes[i].ir, Or(Or(Shl(Of(m.extId), 3), Of(m.ide)), Of(m.rtr)))), hw, k + 1, a);
      }
    }

    method FillPayload(i: nat, m: TxMsg, hw: seq<seq<Event>>, k: nat, ghost a: Accounts)
      requires Valid() && ValidTx(m) && i < 3 && accounts.held[i].None? && k + 4 <= |hw|
      requires a.Sized() && accounts == a.Through(hw, k)
      modifies this
      ensures Valid() && accounts == a.Through(hw, k + 4)
      ensures accounts.held[i].None? && boxes[i] == Filled(old(boxes)[i], m).(ir := old(boxes)[i].ir)
    {
      assert BoxOk(i);
      Put(i, boxes[i].(dtr := And(boxes[i].dtr, DLC_CLEAR)), hw, k, a);
      Put(i, boxes[i].(dtr := Or(boxes[i].dtr, Of(m.dlc))), hw, k + 1, a);
      Put(i, boxes[i].(dlr := DataWord(m.data[0], m.data[1], m.data[2], m.data[3])), hw, k + 2, a);
      Put(i, boxes[i].(dhr := DataWord(m.data[4], m.data[5], m.data[6], m.data[7])), hw, k + 3, a);
    }

    /** One access: a gap in which the controller may act, then the write. */
    method Put(i: nat, b: Mailbox, hw: seq<seq<Event>>, k: nat, ghost a: Accounts)
      requires Valid() && i < 3 && accounts.held[i].None? && k < |hw| && !b.ir[0]
      requires a.Sized() && accounts == a.Through(hw, k)
      modifies this
      ensures Valid() && accounts == a.Through(hw, k + 1)
      ensures accounts.held[i].None? && boxes[i] == b
    {
      Pause(hw, k, a, i);
      Store(i, b);
    }

    /** The controller acts in gap `k`; the mailbox being filled is none of its business. */
    method Pause(hw: seq<seq<Event>>, k: nat, ghost a: Accounts, i: nat)
      requires Valid() && i < 3 && accounts.held[i].None? && k < |hw|
      requires a.Sized() && accounts == a.Through(hw, k)
      modifies this
      ensures Valid() && accounts == a.Through(hw, k + 1)
      ensures accounts.held[i].None? && boxes[i] == old(boxes)[i]
    {
      Controller(hw[k]);
    }

    /** CAN_Transmit. The message goes to the first mailbox found empty; no mailbox is used exactly
        when all three were seen busy. */
    method Transmit(m: TxMsg, hw: seq<seq<Event>>) returns (mailbox: nat)
      requires Valid() && ValidTx(m) && |hw| == 10
      modifies this
      ensures Valid()
      ensures Picked(old(accounts), hw, mailbox)
      ensures mailbox < 3 ==> boxes[mailbox].ir[0] && FrameOf(boxes[mailbox]) == FrameOfTx(m)
      ensures mailbox == NO_MAILBOX ==> accounts == old(accounts).Through(hw, 3)
      ensures mailbox != NO_MAILBOX ==>
        accounts == old(accounts).Through(hw, mailbox + 8).Taken(mailbox, FrameOfTx(m))
    {
      ghost var a := accounts;
      mailbox := Select(hw);
      if mailbox < 3 {
        Fill(mailbox, m, hw, mailbox + 1, a);
        assert BoxOk(mailbox);
      }
      ChoiceIsPicked(a, hw, mailbox);
    }

    /** CAN_TransmitStatus. */
    method TransmitStatus(i: nat) returns (state: nat)
      requires Valid()
      ensures state == accounts.Status(i)
      ensures state == 2 <==> i >= 3 || accounts.held[i].Some?
      ensures state == 1 <==> i < 3 && accounts.outcome[i] == Delivered && !accounts.wiped[i]
      ensures state in {0, 1, 2}
    {
      var bits: Word := Zeros(32);
      if i < 3 {
        bits := And(TSR, Success(i));
        assert BoxOk(i);
        StatusBits(TSR, i);
      } else {
        NoStatusBits();
      }
      if bits == Zeros(32) {
        state := STATUS_PENDING;
      } else if bits == Success(0) || bits == Success(1) || bits == Success(2) {
        state := STATUS_OK;
      } else {
        state := STATUS_FAILED;
      }
    }

    /** CAN_CancelTransmit: a read of TSR, then a write of the value read with one bit more. The
        controller may act before either. A frame that is still pending has its abort requested, and no other
        abort is. */
    method CancelTransmit(i: nat, before: seq<Event>, between: seq<Event>)
      requires Valid()
      modifies this
      ensures Valid()
      ensures i < 3 ==>
        accounts == old(accounts).After(before).After(between).Wiped(old(accounts).After(before))
      ensures i < 3 && accounts.held[i].Some? ==> TSR[8 * i + 7]
      ensures forall j :: 0 <= j < 3 && j != i && TSR[ABRQ(j)] ==> old(TSR)[ABRQ(j)]
      ensures i >= 3 ==> accounts == old(accounts) && TSR == old(TSR)
    {
      if i < 3 {
        Controller(before);
        var tsr := TSR;
        ghost var seen := accounts;
        forall j | 0 <= j < 3 ensures Matches(FlagsOf(tsr, j), seen, j) {
          assert BoxOk(j);
        }
        Controller(between);
        WriteBack(i, tsr, seen);
        assert BoxOk(i);
      }
    }

    /** Any run of driver calls and controller events. */
    method Run(ops: seq<Op>)
      requires Valid() && forall op :: op in ops ==> Sound(op)
      modifies this
      ensures Valid() && accounts == RunAll(old(accounts), ops)
    {
      for k := 0 to |ops|
        invariant Valid() && RunAll(accounts, ops[k..]) == RunAll(old(accounts), ops)
      {
        assert ops[k..][0] == ops[k] && ops[k..][1..] == ops[k + 1..];
        Call(ops[k]);
      }
    }

    method Call(op: Op)
      requires Valid() && Sound(op)
      modifies this
      ensures Valid() && accounts == Do(old(accounts), op)
    {
      match op {
        case Send(m, hw) => SendCall(m, hw);
        case Cancel(i, before, between) => CancelTransmit(i, before, between);
        case Poll(i) =>
          var state := TransmitStatus(i);
        case Idle(events) => Controller(events);
      }
    }

    method SendCall(m: TxMsg, hw: seq<seq<Event>>)
      requires Valid() && ValidTx(m) && |hw| == 10
      modifies this
      ensures Valid() && accounts == Do(old(accounts), Send(m, hw))
    {
      ghost var a := accounts;
      var mailbox := Transmit(m, hw);
      ChoiceIsPicked(a, hw, mailbox);
      SendIs(a, m, hw);
    }

    method WriteBack(i: nat, tsr: Word, ghost seen: Accounts)
      requires Valid() && i < 3 && seen.Sized()
      requires forall j :: 0 <= j < 3 ==> Matches(FlagsOf(tsr, j), seen, j)
      modifies this
      ensures Valid() && accounts == old(accounts).Wiped(seen)
      ensures forall j :: 0 <= j < 3 ==>
        TSR[ABRQ(j)] == (old(TSR)[ABRQ(j)] || (!TSR[TME(j)] && (tsr[ABRQ(j)] || j == i)))
    {
      TSR := Written(TSR, Or(tsr, Mask(ABRQ(i), 1)));
      accounts := accounts.Wiped(seen);
      forall j | 0 <= j < 3
        ensures BoxOk(j)
        ensures TSR[ABRQ(j)] == (old(TSR)[ABRQ(j)] || (!TSR[TME(j)] && (tsr[ABRQ(j)] || j == i)))
      {
        assert old(BoxOk(j));
        AbortWritten(old(TSR), tsr, i, j);
        AbortRequested(old(TSR), tsr, i, j);
        WipedBox(FlagsOf(old(TSR), j), FlagsOf(tsr, j), boxes[j], old(accounts), seen, j);
      }
    }
  }

  /** What the completion flags read from TSR say of the accounts at that moment. */
  ghost predicate Matches(f: Flags, a: Accounts, j: nat)
    requires a.Sized() && j < 3
  {
    f.completed == a.Shows(j) && (f.ok ==> a.Shows(j))
  }

  function Cleared(f: Flags, read: Flags): Flags {
    Flags(f.empty, f.completed && !read.completed, f.ok && !read.ok && !read.completed)
  }

  lemma AbortWritten(tsr: Word, read: Word, i: nat, j: nat)
    requires i < 3 && j < 3
    ensures FlagsOf(Written(tsr, Or(read, Mask(ABRQ(i), 1))), j) == Cleared(FlagsOf(tsr, j), FlagsOf(read, j))
  {
    WrittenFlags(tsr, Or(read, Mask(ABRQ(i), 1)), j);
    assert FlagsOf(Or(read, Mask(ABRQ(i), 1)), j) == FlagsOf(read, j);
  }

  lemma WipedBox(f: Flags, read: Flags, b: Mailbox, a: Accounts, seen: Accounts, j: nat)
    requires a.Sized() && seen.Sized() && j < 3
    requires BoxValid(f, b, a.held[j], a.outcome[j], a.wiped[j]) && Matches(read, seen, j)
    ensures var a' := a.Wiped(seen); BoxValid(Cleared(f, read), b, a'.held[j], a'.outcome[j], a'.wiped[j])
  {
    assert a.Wiped(seen).wiped[j] == (a.wiped[j] || seen.Shows(j));
  }

  /** The identifier bits never contain the request bit. */
  lemma IdBitsLeaveRequest(m: TxMsg)
    requires ValidTx(m)
    ensures !IdBits(m)[0]
  {
    var none: Word := Zeros(32);
    if m.ide == ID_STANDARD {
      StandardIdWord(none, m);
    } else {
      ExtendedIdWord(none, m);
    }
    assert Or(And(none, TXRQ), IdBits(m))[0] == IdBits(m)[0];
  }

  lemma StatusBits(tsr: Word, i: nat)
    requires i < 3
    ensures var bits, f := And(tsr, Success(i)), FlagsOf(tsr, i);
            && (bits == Zeros(32) <==> !f.empty && !f.completed && !f.ok)
            && (bits == Success(0) || bits == Success(1) || bits == Success(2) <==> f.empty && f.completed && f.ok)
  {
    var bits := And(tsr, Success(i));
    assert bits[TME(i)] == tsr[TME(i)] && bits[RQCP(i)] == tsr[RQCP(i)] && bits[TXOK(i)] == tsr[TXOK(i)];
    forall j | 0 <= j < 3 ensures bits == Success(j) <==> j == i && FlagsOf(tsr, i) == Flags(true, true, true) {
      SuccessBits(tsr, i, j);
    }
  }

  lemma SuccessBits(tsr: Word, i: nat, j: nat)
    requires i < 3 && j < 3
    ensures And(tsr, Success(i)) == Success(j) <==> j == i && FlagsOf(tsr, i) == Flags(true, true, true)
  {
    var bits := And(tsr, Success(i));
    assert Success(j)[TME(j)] && Success(j)[RQCP(j)] && Success(j)[TXOK(j)];
    assert j != i ==> !bits[TME(j)];
    assert bits[TME(i)] == tsr[TME(i)] && bits[RQCP(i)] == tsr[RQCP(i)] && bits[TXOK(i)] == tsr[TXOK(i)];
  }

  lemma NoStatusBits()
    ensures Zeros(32) != Success(0) && Zeros(32) != Success(1) && Zeros(32) != Success(2)
  {
    assert Success(0)[TME(0)] && Success(1)[TME(1)] && Success(2)[TME(2)];
  }

  /** The flag pattern of a delivered frame. */
  function Success(i: nat): Word
    requires i < 3
  {
    Or(Or(Mask(RQCP(i), 1), Mask(TXOK(i), 1)), Mask(TME(i), 1))
  }
}
