/** From one node to another: CAN_Transmit here, the frame on the bus, CAN_Receive there
    (stm32f10x_can.c). The bus copies identifier, length and data; the rest of the length register, the
    filter index and the time stamp, is the receiver's own. */
module CanLink {
  import opened Words
  import opened CanFrame
  import opened CanAccounts
  import opened CanTransmit
  import opened CanFifo
  import opened CanReceive

  function Arrived(box: Mailbox, slot: Mailbox): Mailbox {
    box.(dtr := Splice(slot.dtr, 0, Field(box.dtr, 0, 4)))
  }

  lemma ArrivesWhole(box: Mailbox, slot: Mailbox)
    ensures FrameOf(Arrived(box, slot)) == FrameOf(box)
  {
    FieldOfSplice(slot.dtr, 0, Field(box.dtr, 0, 4), 0, 4);
  }

  /** A frame arrives in FIFO `fifo`, with the receiver's own `slot`, and the FIFO is read empty. */
  method Take(rx: Receiver, box: Mailbox, slot: Mailbox, fifo: nat, before: RxMsg) returns (rs: seq<RxMsg>)
    requires fifo < 2 && rx.Valid()
    modifies rx
    ensures rx.Valid() && rx.queues == old(rx.queues)[fifo := []] && |old(rx.queues)[fifo]| <= 3
    ensures |old(rx.queues)[fifo]| < 3 ==> Received(rs, old(rx.queues)[fifo], FrameOf(box), before)
  {
    ghost var q := rx.queues[fifo];
    assert FifoOk(rx.FIFO[fifo], rx.RFR[fifo], q);
    ArrivesWhole(box, slot);
    rx.Arrive(fifo, Arrived(box, slot));
    rs := rx.Drain(fifo, before);
  }

  /** The messages are the frames that waited and then the new one. */
  ghost predicate Received(rs: seq<RxMsg>, q: seq<Mailbox>, f: Frame, before: RxMsg) {
    && |rs| == |q| + 1
    && (forall k :: 0 <= k < |q| ==> FrameOfRx(rs[k]) == FrameOf(q[k]))
    && FrameOfRx(rs[|q|]) == f && OtherIdKept(rs[|q|], before)
  }

  /** Whatever the controller does between the accesses of CAN_Transmit, a frame that found a mailbox, and room
      in the FIFO, is received as it was sent, behind the frames that wait there. */
  method SendAndReceive(
    tx: Transmitter, rx: Receiver, m: TxMsg, hw: seq<seq<Event>>, slot: Mailbox, fifo: nat, before: RxMsg)
    returns (mailbox: nat, rs: seq<RxMsg>)
    requires tx.Valid() && ValidTx(m) && |hw| == 10
    requires fifo < 2 && rx.Valid()
    modifies tx, rx
    ensures tx.Valid() && rx.Valid() && Picked(old(tx.accounts), hw, mailbox) && |old(rx.queues)[fifo]| <= 3
    ensures mailbox < 3 && |old(rx.queues)[fifo]| < 3 ==>
      Received(rs, old(rx.queues)[fifo], FrameOfTx(m), before)
  {
    rs := [];
    assert FifoOk(rx.FIFO[fifo], rx.RFR[fifo], rx.queues[fifo]);
    mailbox := tx.Transmit(m, hw);
    if mailbox < 3 {
      rs := Take(rx, tx.boxes[mailbox], slot, fifo, before);
    }
  }
}
