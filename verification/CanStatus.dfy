/** When the answers of CAN_TransmitStatus are the truth, over whole runs of the driver and the controller
    (stm32f10x_can.c). CAN_CancelTransmit writes TSR back, which clears completion flags it was not asked to
    touch. */
module CanStatus {
  import opened CanFrame
  import opened CanAccounts

  ghost predicate AllSound(ops: seq<Op>) {
    forall op :: op in ops ==> Sound(op)
  }

  /** What every run from reset keeps: a mailbox is waiting exactly while it holds a frame, and only
      the flags of a finished transmission can have been cleared. */
  ghost predicate Coherent(a: Accounts, i: nat)
    requires a.Sized() && i < 3
  {
    (a.held[i].Some? <==> a.outcome[i] == Waiting) && (a.wiped[i] ==> a.outcome[i] in {Delivered, NotDelivered})
  }

  /** A status answer tells whether the frame was delivered. */
  ghost predicate Truthful(a: Accounts, i: nat)
    requires a.Sized() && i < 3
  {
    a.Status(i) == STATUS_OK <==> a.outcome[i] == Delivered
  }

  /** A call that cancels some mailbox, and reads TSR while the last transmission of mailbox `i` is over. */
  ghost predicate Clears(a: Accounts, op: Op, i: nat)
    requires a.Sized() && i < 3
  {
    op.Cancel? && op.mailbox < 3 && a.After(op.before).outcome[i] in {Delivered, NotDelivered}
  }

  /** A call that sends into mailbox `i`. */
  ghost predicate SendsInto(a: Accounts, op: Op, i: nat)
    requires a.Sized() && Sound(op)
  {
    op.Send? && Choice(a, op.hw) == i
  }

  lemma {:induction false} AfterCoherent(a: Accounts, events: seq<Event>, i: nat)
    requires a.Sized() && i < 3 && Coherent(a, i)
    ensures Coherent(a.After(events), i) && a.After(events).wiped[i] == a.wiped[i]
    decreases |events|
  {
    if events != [] {
      AfterCoherent(a.On(events[0]), events[1..], i);
    }
  }

  lemma {:induction false} ThroughCoherent(a: Accounts, hw: seq<seq<Event>>, k: nat, i: nat)
    requires a.Sized() && i < 3 && Coherent(a, i) && k <= |hw|
    ensures Coherent(a.Through(hw, k), i) && a.Through(hw, k).wiped[i] == a.wiped[i]
    decreases k
  {
    if k > 0 {
      ThroughCoherent(a, hw, k - 1, i);
      AfterCoherent(a.Through(hw, k - 1), hw[k - 1], i);
    }
  }

  lemma SendCoherent(a: Accounts, m: TxMsg, hw: seq<seq<Event>>, i: nat)
    requires a.Sized() && i < 3 && Coherent(a, i) && |hw| == 10 && ValidTx(m)
    ensures Coherent(Do(a, Send(m, hw)), i)
    ensures Do(a, Send(m, hw)).wiped[i] == (a.wiped[i] && !SendsInto(a, Send(m, hw), i))
  {
    var c := Choice(a, hw);
    if c < 3 {
      ThroughCoherent(a, hw, c + 8, i);
      TakenCoherent(a.Through(hw, c + 8), c, FrameOfTx(m), i);
    } else {
      ThroughCoherent(a, hw, 3, i);
    }
  }

  lemma TakenCoherent(a: Accounts, c: nat, f: Frame, i: nat)
    requires a.Sized() && i < 3 && c < 3 && Coherent(a, i)
    ensures Coherent(a.Taken(c, f), i) && a.Taken(c, f).wiped[i] == (a.wiped[i] && c != i)
  {
  }

  lemma CancelCoherent(a: Accounts, j: nat, before: seq<Event>, between: seq<Event>, i: nat)
    requires a.Sized() && i < 3 && Coherent(a, i) && j < 3
    ensures Coherent(Do(a, Cancel(j, before, between)), i)
    ensures Do(a, Cancel(j, before, between)).wiped[i] == (a.wiped[i] || Clears(a, Cancel(j, before, between), i))
  {
    var seen := a.After(before);
    AfterCoherent(a, before, i);
    AfterCoherent(seen, between, i);
    if seen.held[i].None? {
      AfterIdle(seen, between, i);
    }
    var z := seen.After(between).Wiped(seen);
    assert z.wiped[i] == (seen.After(between).wiped[i] || seen.Shows(i));
  }

  /** What one call does to the flags of a mailbox. */
  lemma DoCoherent(a: Accounts, op: Op, i: nat)
    requires a.Sized() && i < 3 && Coherent(a, i) && Sound(op)
    ensures Coherent(Do(a, op), i)
    ensures Do(a, op).wiped[i] <==> Clears(a, op, i) || (a.wiped[i] && !SendsInto(a, op, i))
  {
    match op
    case Send(m, hw) => SendCoherent(a, m, hw, i);
    case Cancel(j, before, between) =>
      if j < 3 {
        CancelCoherent(a, j, before, between, i);
      }
    case Poll(_) =>
    case Idle(events) => AfterCoherent(a, events, i);
  }

  /** What a call does to the flags of one mailbox. */
  datatype Mark = Mark(clears: bool, sends: bool)

  /** The marks of the calls of a run, in order. */
  ghost function Marks(a: Accounts, ops: seq<Op>, i: nat): (ms: seq<Mark>)
    requires a.Sized() && i < 3 && AllSound(ops)
    ensures |ms| == |ops|
    decreases |ops|
  {
    if ops == [] then []
    else [Mark(Clears(a, ops[0], i), SendsInto(a, ops[0], i))] + Marks(Do(a, ops[0]), ops[1..], i)
  }

  ghost predicate NoSend(ms: seq<Mark>, from: nat) {
    forall l :: from <= l < |ms| ==> !ms[l].sends
  }

  /** Some call clears the flags, and no later call sends into the mailbox. */
  ghost predicate LeftCleared(ms: seq<Mark>) {
    exists k :: 0 <= k < |ms| && ms[k].clears && NoSend(ms, k + 1)
  }

  lemma OneMarkMore(m: Mark, ms: seq<Mark>)
    ensures NoSend([m] + ms, 1) <==> NoSend(ms, 0)
    ensures NoSend([m] + ms, 0) <==> !m.sends && NoSend(ms, 0)
    ensures LeftCleared([m] + ms) <==> LeftCleared(ms) || (m.clears && NoSend(ms, 0))
  {
    var all := [m] + ms;
    forall k: nat ensures NoSend(all, k + 1) <==> NoSend(ms, k) {
      if NoSend(all, k + 1) {
        forall l | k <= l < |ms| ensures !ms[l].sends {
          assert all[l + 1] == ms[l];
        }
      }
    }
    if k :| 0 <= k < |ms| && ms[k].clears && NoSend(ms, k + 1) {
      assert all[k + 1].clears && NoSend(all, k + 2);
    }
    if k :| 0 < k < |all| && all[k].clears && NoSend(all, k + 1) {
      assert ms[k - 1].clears && NoSend(ms, k);
    }
    assert all[0] == m;
  }

  /** The run left the flags of mailbox `i` cleared: a cancel of any mailbox read TSR when the last
      transmission of `i` was over, and nothing was sent into `i` since. */
  ghost predicate CancelledOver(a: Accounts, ops: seq<Op>, i: nat)
    requires a.Sized() && i < 3 && AllSound(ops)
  {
    LeftCleared(Marks(a, ops, i))
  }

  /** Over any run: the flags are cleared exactly when the run left them cleared, or found them cleared
      and sent nothing. */
  lemma {:induction false} ClearedOverRuns(a: Accounts, ops: seq<Op>, i: nat)
    requires a.Sized() && i < 3 && AllSound(ops) && Coherent(a, i)
    ensures Coherent(RunAll(a, ops), i)
    ensures RunAll(a, ops).wiped[i] <==> CancelledOver(a, ops, i) || (a.wiped[i] && NoSend(Marks(a, ops, i), 0))
    decreases |ops|
  {
    if ops != [] {
      DoCoherent(a, ops[0], i);
      ClearedOverRuns(Do(a, ops[0]), ops[1..], i);
      OneMarkMore(Mark(Clears(a, ops[0], i), SendsInto(a, ops[0], i)), Marks(Do(a, ops[0]), ops[1..], i));
    }
  }

  /** Over any run, a status answer is the truth exactly when the frame was not delivered or no cancel
      was made over its mailbox since. */
  lemma StatusOverRuns(a: Accounts, ops: seq<Op>, i: nat)
    requires a.Sized() && i < 3 && AllSound(ops) && Coherent(a, i) && !a.wiped[i]
    ensures Truthful(RunAll(a, ops), i) <==>
            !(RunAll(a, ops).outcome[i] == Delivered && CancelledOver(a, ops, i))
  {
    ClearedOverRuns(a, ops, i);
  }

  /** The same from reset. */
  lemma StatusFromReset(ops: seq<Op>, i: nat)
    requires i < 3 && AllSound(ops)
    ensures Truthful(RunAll(Fresh(), ops), i) <==>
            !(RunAll(Fresh(), ops).outcome[i] == Delivered && CancelledOver(Fresh(), ops, i))
  {
    StatusOverRuns(Fresh(), ops, i);
  }

  /** Runs without a cancel: every status answer is the truth. */
  lemma StatusWithoutCancel(a: Accounts, ops: seq<Op>, i: nat)
    requires a.Sized() && i < 3 && AllSound(ops) && Coherent(a, i) && !a.wiped[i]
    requires forall op :: op in ops && op.Cancel? ==> op.mailbox >= 3
    ensures Truthful(RunAll(a, ops), i)
  {
    StatusOverRuns(a, ops, i);
    NothingCleared(a, ops, i);
  }

  lemma {:induction false} NothingCleared(a: Accounts, ops: seq<Op>, i: nat)
    requires a.Sized() && i < 3 && AllSound(ops) && forall op :: op in ops && op.Cancel? ==> op.mailbox >= 3
    ensures !CancelledOver(a, ops, i)
    decreases |ops|
  {
    if ops != [] {
      NothingCleared(Do(a, ops[0]), ops[1..], i);
      OneMarkMore(Mark(Clears(a, ops[0], i), SendsInto(a, ops[0], i)), Marks(Do(a, ops[0]), ops[1..], i));
    }
  }

  /** What a caller can check: a cancel keeps the answer for mailbox `i` true exactly when the status of
      `i` at the cancel's read of TSR is not a success. */
  lemma CancelKeepsTruth(a: Accounts, i: nat, j: nat, before: seq<Event>, between: seq<Event>)
    requires a.Sized() && i < 3 && j < 3 && Coherent(a, i) && Truthful(a.After(before), i)
    ensures Truthful(Do(a, Cancel(j, before, between)), i) <==> a.After(before).Status(i) != STATUS_OK
  {
    var seen := a.After(before);
    CancelCoherent(a, j, before, between, i);
    AfterCoherent(a, before, i);
    AfterCoherent(seen, between, i);
    if seen.held[i].None? {
      AfterIdle(seen, between, i);
    }
  }

  /** A call during which the controller does nothing. */
  function Quiet(): (hw: seq<seq<Event>>)
    ensures |hw| == 10 && forall i :: 0 <= i < |hw| ==> hw[i] == []
  {
    [[], [], [], [], [], [], [], [], [], []]
  }

  /** From reset: a frame is sent and delivered, a mailbox that was never used is cancelled, and the
      delivered frame reads as failed. */
  lemma DeliveredReadsAsFailed(m: TxMsg)
    requires ValidTx(m)
    ensures var ops := [Send(m, Quiet()), Idle([Complete(0, true, false, false)]), Cancel(2, [], [])];
            && AllSound(ops) && RunAll(Fresh(), ops).outcome[0] == Delivered
            && RunAll(Fresh(), ops[..2]).Status(0) == STATUS_OK && RunAll(Fresh(), ops).Status(0) == STATUS_FAILED
  {
    var send, done, cancel := Send(m, Quiet()), Idle([Complete(0, true, false, false)]), Cancel(2, [], []);
    QuietSend(m, Quiet());
    QuietFinish(FrameOfTx(m));
    var b := Fresh().Taken(0, FrameOfTx(m)).Settled(0, true);
    CancelHidesDelivery(b, 0, 2, [], []);
    var c := Do(b, cancel);
    FirstCall(b, cancel, c, []);
    FirstCall(Fresh().Taken(0, FrameOfTx(m)), done, b, []);
    FirstCall(Fresh().Taken(0, FrameOfTx(m)), done, b, [cancel] + []);
    FirstCall(Fresh(), send, Fresh().Taken(0, FrameOfTx(m)), [done] + []);
    FirstCall(Fresh(), send, Fresh().Taken(0, FrameOfTx(m)), [done] + ([cancel] + []));
    assert [send, done, cancel][..2] == [send] + ([done] + []);
    assert [send, done, cancel] == [send] + ([done] + ([cancel] + []));
  }

  lemma FirstCall(a: Accounts, x: Op, b: Accounts, rest: seq<Op>)
    requires a.Sized() && Sound(x) && AllSound(rest) && b == Do(a, x)
    ensures AllSound([x] + rest) && RunAll(a, [x] + rest) == RunAll(b, rest)
  {
    assert ([x] + rest)[1..] == rest;
  }

  lemma QuietSend(m: TxMsg, hw: seq<seq<Event>>)
    requires ValidTx(m) && |hw| == 10 && forall i :: 0 <= i < |hw| ==> hw[i] == []
    ensures Do(Fresh(), Send(m, hw)) == Fresh().Taken(0, FrameOfTx(m))
  {
    QuietGaps(Fresh(), hw, 1);
    QuietGaps(Fresh(), hw, 8);
  }

  lemma QuietFinish(f: Frame)
    ensures var a := Fresh().Taken(0, f);
            Do(a, Idle([Complete(0, true, false, false)])) == a.Settled(0, true)
  {
    var e := Complete(0, true, false, false);
    assert [e][1..] == [];
  }

  lemma {:induction false} QuietGaps(a: Accounts, hw: seq<seq<Event>>, k: nat)
    requires a.Sized() && k <= |hw| && forall i :: 0 <= i < |hw| ==> hw[i] == []
    ensures a.Through(hw, k) == a
    decreases k
  {
    if k > 0 {
      QuietGaps(a, hw, k - 1);
    }
  }
}
