/** The two receive FIFOs of three frames: CAN_Receive and CAN_MessagePending (stm32f10x_can.c).

    The controller puts arriving frames behind those that wait and shows the oldest in the FIFO's mailbox
    registers. A write of the release bit makes it drop that frame. It may add frames at any moment; while one
    waits, the registers do not change, so only arrivals during the release itself make a difference, and a call
    takes those as a parameter. */
module CanReceive {
  import opened Words
  import opened CanFrame
  import opened CanFifo

  const FULL := 3
  const FOVR := 4
  const RFOM := 5

  // ---- the controller --------------------------------------------------------------------

  /** A write of a FIFO's status register: the full and the overrun flag are cleared where a one is
      written, the release bit is set by a one, and the rest does not follow writes. */
  function WrittenRFR(rfr: Word, v: Word): Word {
    rfr[FULL := rfr[FULL] && !v[FULL]][FOVR := rfr[FOVR] && !v[FOVR]][RFOM := rfr[RFOM] || v[RFOM]]
  }

  /** The status register after an arrival behind `n` waiting frames. */
  function Counted(rfr: Word, n: nat): Word {
    var w: Word := Splice(rfr, 0, Bits(if n < 3 then n + 1 else 3, 2));
    w[FULL := w[FULL] || n >= 2][FOVR := w[FOVR] || n >= 3]
  }

  function AllCounted(rfr: Word, n: nat, more: nat): Word
    requires n <= 3
    decreases more
  {
    if more == 0 then rfr else AllCounted(Counted(rfr, n), if n < 3 then n + 1 else 3, more - 1)
  }

  /** The number of waiting frames, as the register shows it. */
  function Waiting(rfr: Word): nat {
    Value(Field(rfr, 0, 2))
  }

  lemma CountWritten(rfr: Word, n: nat)
    requires n <= 3
    ensures Waiting(Splice(rfr, 0, Bits(n, 2))) == n
    ensures forall k :: 2 <= k < 32 ==> Splice(rfr, 0, Bits(n, 2))[k] == rfr[k]
  {
    SmallPowers();
    FieldValue(n, 2);
    FieldOfSplice(rfr, 0, Bits(n, 2), 0, 2);
  }

  lemma OneCounted(rfr: Word, n: nat)
    requires n <= 3
    ensures Waiting(Counted(rfr, n)) == if n < 3 then n + 1 else 3
    ensures Counted(rfr, n)[FULL] == (rfr[FULL] || n >= 2) && Counted(rfr, n)[FOVR] == (rfr[FOVR] || n >= 3)
    ensures forall k :: 2 <= k < 32 && k != FULL && k != FOVR ==> Counted(rfr, n)[k] == rfr[k]
  {
    var m := if n < 3 then n + 1 else 3;
    CountWritten(rfr, m);
    assert Field(Counted(rfr, n), 0, 2) == Field(Splice(rfr, 0, Bits(m, 2)), 0, 2);
  }

  /** Arrivals count up to three, and raise the full flag when three wait and the overrun flag beyond. */
  lemma {:induction false} ManyCounted(rfr: Word, n: nat, more: nat)
    requires n <= 3 && Waiting(rfr) == n
    ensures var w := AllCounted(rfr, n, more);
            && Waiting(w) == (if n + more > 3 then 3 else n + more)
            && w[FULL] == (rfr[FULL] || (more > 0 && n + more >= 3))
            && w[FOVR] == (rfr[FOVR] || (more > 0 && n + more > 3))
            && forall k :: 2 <= k < 32 && k != FULL && k != FOVR ==> w[k] == rfr[k]
    decreases more
  {
    if more > 0 {
      OneCounted(rfr, n);
      ManyCounted(Counted(rfr, n), if n < 3 then n + 1 else 3, more - 1);
    }
  }

  /** Writing back what was read keeps a flag as the controller has it by then exactly when it was not up at the
      read. The release bit is always set. */
  lemma ReleaseKeepsFlags(read: Word, now: Word)
    requires (read[FULL] ==> now[FULL]) && (read[FOVR] ==> now[FOVR])
    ensures var w := WrittenRFR(now, Or(read, Mask(RFOM, 1)));
            (w[FULL] == now[FULL] <==> !read[FULL]) && (w[FOVR] == now[FOVR] <==> !read[FOVR]) && w[RFOM]
  {
  }

  // ---- the driver ------------------------------------------------------------------------

  class Receiver {
    var FIFO: seq<Mailbox>
    var RFR: seq<Word>
    /** What waits in each FIFO, the oldest first. */
    var queues: seq<seq<Mailbox>>
    var locked: bool

    ghost predicate Valid()
      reads this
    {
      |FIFO| == 2 && |RFR| == 2 && |queues| == 2 && forall f :: 0 <= f < 2 ==> FifoOk(FIFO[f], RFR[f], queues[f])
    }

    constructor (shown: seq<Mailbox>, lock: bool)
      requires |shown| == 2
      ensures Valid() && queues == [[], []] && locked == lock
    {
      FIFO := shown;
      RFR := [Zeros(32), Zeros(32)];
      queues := [[], []];
      locked := lock;
      ValueZeros(2);
      assert Field(Zeros(32), 0, 2) == Zeros(2);
    }

    /** A frame arrives. */
    method Arrive(fifo: nat, box: Mailbox)
      requires Valid() && fifo < 2
      modifies this`FIFO, this`RFR, this`queues
      ensures Valid() && queues == old(queues)[fifo := Queued(old(queues)[fifo], box, locked)]
      ensures RFR == old(RFR)[fifo := Counted(old(RFR)[fifo], |old(queues)[fifo]|)]
    {
      var q := queues[fifo];
      OneCounted(RFR[fifo], |q|);
      RFR := RFR[fifo := Counted(RFR[fifo], |q|)];
      queues := queues[fifo := Queued(q, box, locked)];
      FIFO := FIFO[fifo := queues[fifo][0]];
    }

    /** The controller acts on the release bit: the oldest frame goes. In an empty FIFO there is nothing to go. */
    method TakeRelease(fifo: nat)
      requires Valid() && fifo < 2
      modifies this`FIFO, this`RFR, this`queues
      ensures Valid()
      ensures queues == old(queues)[fifo := if old(RFR)[fifo][5] then Rest(old(queues)[fifo]) else old(queues)[fifo]]
      ensures !RFR[fifo][5]
    {
      if RFR[fifo][RFOM] {
        var q := Rest(queues[fifo]);
        CountWritten(RFR[fifo], |q|);
        var w: Word := Splice(RFR[fifo], 0, Bits(|q|, 2));
        RFR := RFR[fifo := w[RFOM := false]];
        assert Field(RFR[fifo], 0, 2) == Field(w, 0, 2);
        queues := queues[fifo := q];
        if q != [] {
          FIFO := FIFO[fifo := q[0]];
        }
      }
    }

    /** CAN_Receive unpacks the oldest frame of FIFO `fifo`; an identifier of the other kind keeps its earlier
        value. The release is a read and a write of the status register, so it also clears the flags that were
        read; those the controller raises between the read and the write, because of the frames `meanwhile`,
        stay. */
    method Receive(fifo: nat, before: RxMsg, meanwhile: seq<Mailbox>) returns (m: RxMsg)
      requires Valid() && fifo < 2
      modifies this`FIFO, this`RFR, this`queues
      ensures Valid() && queues == old(queues)[fifo := AllQueued(old(queues)[fifo], meanwhile, locked)]
      ensures Unpacked(m, old(FIFO)[fifo], before) && FrameOfRx(m) == FrameOf(old(FIFO)[fifo])
      ensures RFR == old(RFR)[fifo := RFR[fifo]]
      ensures RFR[fifo][5]
      ensures RFR[fifo][3] == (!old(RFR)[fifo][3] && meanwhile != [] && |old(queues)[fifo]| + |meanwhile| >= 3)
      ensures RFR[fifo][4] == (!old(RFR)[fifo][4] && meanwhile != [] && |old(queues)[fifo]| + |meanwhile| > 3)
      ensures RFR[fifo][2] == old(RFR)[fifo][2] && forall k :: 6 <= k < 32 ==> RFR[fifo][k] == old(RFR)[fifo][k]
    {
      var b := FIFO[fifo];
      m := before;
      m := m.(ide := Value(And(Mask(2, 1), b.ir)));
      OneBitValue(b.ir, 2, 4);
      if m.ide == ID_STANDARD {
        m := m.(stdId := Value(And(Mask(0, 11), Shr(b.ir, 21))));
        FieldRead(b.ir, 21, 11);
      } else {
        m := m.(extId := Value(And(Mask(0, 29), Shr(b.ir, 3))));
        FieldRead(b.ir, 3, 29);
      }
      m := m.(rtr := Value(And(Mask(1, 1), b.ir)));
      OneBitValue(b.ir, 1, 2);
      var dlc, fmi, low, high := ReadPayload(b);
      m := m.(dlc := dlc, fmi := fmi, data := low + high);
      UnpackedFrame(m, b, before);
      Release(fifo, meanwhile);
    }

    /** `RFxR |= RFOM`, with what arrives between its read and its write. */
    method Release(fifo: nat, meanwhile: seq<Mailbox>)
      requires Valid() && fifo < 2
      modifies this`FIFO, this`RFR, this`queues
      ensures Valid() && queues == old(queues)[fifo := AllQueued(old(queues)[fifo], meanwhile, locked)]
      ensures RFR == old(RFR)[fifo := RFR[fifo]]
      ensures RFR[fifo][5]
      ensures RFR[fifo][3] == (!old(RFR)[fifo][3] && meanwhile != [] && |old(queues)[fifo]| + |meanwhile| >= 3)
      ensures RFR[fifo][4] == (!old(RFR)[fifo][4] && meanwhile != [] && |old(queues)[fifo]| + |meanwhile| > 3)
      ensures RFR[fifo][2] == old(RFR)[fifo][2] && forall k :: 6 <= k < 32 ==> RFR[fifo][k] == old(RFR)[fifo][k]
    {
      assert FifoOk(FIFO[fifo], RFR[fifo], queues[fifo]);
      ManyCounted(RFR[fifo], |queues[fifo]|, |meanwhile|);
      var v := Or(RFR[fifo], Mask(RFOM, 1));
      ArriveAll(fifo, meanwhile);
      var w := WrittenRFR(RFR[fifo], v);
      assert Field(w, 0, 2) == Field(RFR[fifo], 0, 2);
      RFR := RFR[fifo := w];
    }

    method ArriveAll(fifo: nat, boxes: seq<Mailbox>)
      requires Valid() && fifo < 2
      modifies this`FIFO, this`RFR, this`queues
      ensures Valid() && queues == old(queues)[fifo := AllQueued(old(queues)[fifo], boxes, locked)]
      ensures RFR == old(RFR)[fifo := AllCounted(old(RFR)[fifo], |old(queues)[fifo]|, |boxes|)]
    {
      for k := 0 to |boxes|
        invariant Valid() && queues == old(queues)[fifo := queues[fifo]] && RFR == old(RFR)[fifo := RFR[fifo]]
        invariant AllQueued(queues[fifo], boxes[k..], locked) == AllQueued(old(queues)[fifo], boxes, locked)
        invariant AllCounted(RFR[fifo], |queues[fifo]|, |boxes| - k) ==
                  AllCounted(old(RFR)[fifo], |old(queues)[fifo]|, |boxes|)
      {
        assert boxes[k..][0] == boxes[k] && boxes[k..][1..] == boxes[k + 1..];
        Arrive(fifo, boxes[k]);
      }
    }

    method ReadPayload(b: Mailbox) returns (dlc: nat, fmi: nat, low: seq<nat>, high: seq<nat>)
      ensures dlc == Value(Field(b.dtr, 0, 4)) && fmi == Value(Field(b.dtr, 8, 8))
      ensures low == BytesOf(b.dlr) && high == BytesOf(b.dhr)
    {
      dlc := Value(And(Mask(0, 4), b.dtr));
      FieldReadLow(b.dtr, 4);
      fmi := Value(And(Mask(0, 8), Shr(b.dtr, 8)));
      FieldRead(b.dtr, 8, 8);
      low := ReadBytes(b.dlr);
      high := ReadBytes(b.dhr);
    }

    method ReadBytes(w: Word) returns (bytes: seq<nat>)
      ensures bytes == BytesOf(w)
    {
      bytes := [Value(And(Mask(0, 8), w)), Value(And(Mask(0, 8), Shr(w, 8))),
                Value(And(Mask(0, 8), Shr(w, 16))), Value(And(Mask(0, 8), Shr(w, 24)))];
      FieldReadLow(w, 8);
      FieldRead(w, 8, 8);
      FieldRead(w, 16, 8);
      FieldRead(w, 24, 8);
    }

    /** CAN_MessagePending. */
    method MessagePending(fifo: nat) returns (pending: nat)
      requires Valid() && fifo < 2
      ensures pending == |queues[fifo]|
    {
      pending := Value(And(RFR[fifo], Mask(0, 2)));
      FieldInPlace(RFR[fifo], 0, 2);
    }

    /** A frame is read if one waits, and the controller acts on the release. */
    method Read(fifo: nat, before: RxMsg, meanwhile: seq<Mailbox>) returns (ms: seq<RxMsg>)
      requires Valid() && fifo < 2
      modifies this`FIFO, this`RFR, this`queues
      ensures Valid()
      ensures old(queues)[fifo] == [] ==> ms == [] && queues == old(queues)
      ensures old(queues)[fifo] != [] ==>
        && |ms| == 1 && FrameOfRx(ms[0]) == FrameOf(old(queues)[fifo][0]) && OtherIdKept(ms[0], before)
        && queues == old(queues)[fifo := Rest(AllQueued(old(queues)[fifo], meanwhile, locked))]
    {
      var pending := MessagePending(fifo);
      ms := [];
      if pending > 0 {
        assert FifoOk(FIFO[fifo], RFR[fifo], queues[fifo]);
        var m := Receive(fifo, before, meanwhile);
        TakeRelease(fifo);
        ms := [m];
      }
    }

    /** As many calls of CAN_Receive as frames wait return those frames, in order, and leave none. */
    method Drain(fifo: nat, before: RxMsg) returns (ms: seq<RxMsg>)
      requires Valid() && fifo < 2
      modifies this`FIFO, this`RFR, this`queues
      ensures Valid() && queues == old(queues)[fifo := []]
      ensures |ms| == |old(queues)[fifo]|
      ensures forall k :: 0 <= k < |ms| ==>
        FrameOfRx(ms[k]) == FrameOf(old(queues)[fifo][k]) && OtherIdKept(ms[k], before)
    {
      var n := MessagePending(fifo);
      ms := [];
      while |ms| < n
        invariant Valid() && |ms| <= n && queues == old(queues)[fifo := old(queues)[fifo][|ms|..]]
        invariant forall k :: 0 <= k < |ms| ==>
          FrameOfRx(ms[k]) == FrameOf(old(queues)[fifo][k]) && OtherIdKept(ms[k], before)
      {
        ghost var k := |ms|;
        var next := Read(fifo, before, []);
        assert Rest(old(queues)[fifo][k..]) == old(queues)[fifo][k + 1..];
        ms := ms + next;
      }
    }

    /** Any run of arrivals and reads on both FIFOs. */
    method Run(ops: seq<Op<Mailbox>>, before: RxMsg) returns (ms: seq<seq<RxMsg>>)
      requires Valid() && forall op :: op in ops ==> op.fifo < 2
      modifies this`FIFO, this`RFR, this`queues
      ensures Valid() && |ms| == 2 && |old(queues)[0]| <= 3 && |old(queues)[1]| <= 3
      ensures forall f :: 0 <= f < 2 ==> Follows(RunLine(Start(old(queues)[f]), ops, f, locked), queues[f], ms[f])
    {
      ms := [[], []];
      ms := [[], []];
      ghost var lines := [Start(queues[0]), Start(queues[1])];
      for i := 0 to |ops|
        invariant Valid() && |ms| == 2 && |lines| == 2
        invariant forall f :: 0 <= f < 2 ==> lines[f] == RunLine(Start(old(queues)[f]), ops[..i], f, locked)
        invariant forall f :: 0 <= f < 2 ==> Follows(lines[f], queues[f], ms[f])
      {
        assert ops[..i + 1][..i] == ops[..i];
        var f := ops[i].fifo;
        var next := Call(ops[i], before, lines[f]);
        ghost var l := Step(lines[f], ops[i], locked);
        FollowsOn(lines[f], l, MoreRead(lines[f], ops[i]), ms[f], next);
        ms := ms[f := ms[f] + next];
        lines := lines[f := l];
      }
      assert ops[..|ops|] == ops;
    }

    method Call(op: Op<Mailbox>, before: RxMsg, ghost l: Line<Mailbox>) returns (ms: seq<RxMsg>)
      requires Valid() && op.fifo < 2 && l.queue == queues[op.fifo] && |l.queue| <= 3
      modifies this`FIFO, this`RFR, this`queues
      ensures Valid() && queues == old(queues)[op.fifo := Step(l, op, locked).queue]
      ensures FramesRead(ms) == FramesIn(MoreRead(l, op))
    {
      ms := [];
      assert FifoOk(FIFO[op.fifo], RFR[op.fifo], queues[op.fifo]);
      match op {
        case Arrives(fifo, box) => Arrive(fifo, box);
        case Reads(fifo, meanwhile) => ms := Read(fifo, before, meanwhile);
      }
    }
  }

  /** The registers of one FIFO count the frames that wait, and show the oldest. */
  ghost predicate FifoOk(shown: Mailbox, rfr: Word, q: seq<Mailbox>) {
    |q| <= 3 && Waiting(rfr) == |q| && (q != [] ==> shown == q[0])
  }

  /** What a message says, word for word. */
  ghost predicate Unpacked(m: RxMsg, b: Mailbox, before: RxMsg) {
    && m.ide == (if b.ir[2] then 4 else 0) && m.rtr == (if b.ir[1] then 2 else 0)
    && m.stdId == (if b.ir[2] then before.stdId else Value(Field(b.ir, 21, 11)))
    && m.extId == (if b.ir[2] then Value(Field(b.ir, 3, 29)) else before.extId)
    && m.dlc == Value(Field(b.dtr, 0, 4)) && m.fmi == Value(Field(b.dtr, 8, 8)) && |m.data| == 8
    && (forall k :: 0 <= k < 4 ==> m.data[k] == Value(Field(b.dlr, 8 * k, 8)))
    && (forall k :: 4 <= k < 8 ==> m.data[k] == Value(Field(b.dhr, 8 * k - 32, 8)))
  }

  predicate OtherIdKept(m: RxMsg, before: RxMsg) {
    (m.ide == ID_STANDARD ==> m.extId == before.extId) && (m.ide == ID_EXTENDED ==> m.stdId == before.stdId)
  }

  lemma FieldRead(w: Word, pos: nat, width: nat)
    requires pos + width <= 32
    ensures Value(And(Mask(0, width), Shr(w, pos))) == Value(Field(w, pos, width))
  {
    ShiftAndMask(w, pos, width);
    assert And(Mask(0, width), Shr(w, pos)) == And(Shr(w, pos), Mask(0, width));
  }

  lemma FieldReadLow(w: Word, width: nat)
    requires width <= 32
    ensures Value(And(Mask(0, width), w)) == Value(Field(w, 0, width))
  {
    FieldRead(w, 0, width);
    assert Shr(w, 0) == w;
  }

  lemma OneBitValue(w: Word, pos: nat, place: nat)
    requires pos < 32 && place == Pow2(pos)
    ensures Value(And(Mask(pos, 1), w)) == if w[pos] then place else 0
  {
    if w[pos] {
      assert And(Mask(pos, 1), w) == Mask(pos, 1);
      MaskValue(pos, 1);
    } else {
      assert And(Mask(pos, 1), w) == Zeros(32);
      ValueZeros(32);
    }
  }

  lemma BytesUnpacked(low: Word, high: Word, data: seq<nat>)
    requires data == BytesOf(low) + BytesOf(high)
    ensures |data| == 8
    ensures forall k :: 0 <= k < 4 ==> data[k] == Value(Field(low, 8 * k, 8))
    ensures forall k :: 4 <= k < 8 ==> data[k] == Value(Field(high, 8 * k - 32, 8))
  {
  }

  lemma UnpackedFrame(m: RxMsg, b: Mailbox, before: RxMsg)
    requires m.ide == (if b.ir[2] then 4 else 0) && m.rtr == (if b.ir[1] then 2 else 0)
    requires m.stdId == (if b.ir[2] then before.stdId else Value(Field(b.ir, 21, 11)))
    requires m.extId == (if b.ir[2] then Value(Field(b.ir, 3, 29)) else before.extId)
    requires m.dlc == Value(Field(b.dtr, 0, 4)) && m.fmi == Value(Field(b.dtr, 8, 8))
    requires m.data == BytesOf(b.dlr) + BytesOf(b.dhr)
    ensures Unpacked(m, b, before) && FrameOfRx(m) == FrameOf(b) && OtherIdKept(m, before)
  {
    BytesUnpacked(b.dlr, b.dhr, m.data);
  }

  // ---- runs ------------------------------------------------------------------------------

  ghost function FramesIn(q: seq<Mailbox>): (r: seq<Frame>)
    ensures |r| == |q|
  {
    seq(|q|, i requires 0 <= i < |q| => FrameOf(q[i]))
  }

  ghost function FramesRead(ms: seq<RxMsg>): (r: seq<Frame>)
    ensures |r| == |ms|
  {
    seq(|ms|, i requires 0 <= i < |ms| => FrameOfRx(ms[i]))
  }

  /** The messages read and the frames left waiting are those of the queue. */
  ghost predicate Follows(l: Line<Mailbox>, q: seq<Mailbox>, ms: seq<RxMsg>) {
    l.queue == q && FramesIn(l.read) == FramesRead(ms)
  }

  lemma FollowsOn(l: Line<Mailbox>, l': Line<Mailbox>, more: seq<Mailbox>, ms: seq<RxMsg>, next: seq<RxMsg>)
    requires Follows(l, l.queue, ms) && l'.read == l.read + more && FramesIn(more) == FramesRead(next)
    ensures Follows(l', l'.queue, ms + next)
  {
    assert FramesRead(ms + next) == FramesRead(ms) + FramesRead(next);
    assert FramesIn(l.read + more) == FramesIn(l.read) + FramesIn(more);
  }
}
