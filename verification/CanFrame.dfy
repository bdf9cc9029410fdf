/** Frames, the four words of a transmit mailbox, and the four words of a receive FIFO slot
    (stm32f10x_can.c). */
module CanFrame {
  import opened Words

  /** A frame on the bus. */
  datatype Frame = Frame(extended: bool, remote: bool, id: nat, dlc: nat, data: seq<nat>)

  /** The driver's message structures: numbers in C fields. */
  datatype TxMsg = TxMsg(stdId: nat, extId: nat, ide: nat, rtr: nat, dlc: nat, data: seq<nat>)
  datatype RxMsg = RxMsg(stdId: nat, extId: nat, ide: nat, rtr: nat, dlc: nat, data: seq<nat>, fmi: nat)

  const ID_STANDARD := 0
  const ID_EXTENDED := 4

  /** What the driver asserts of a message, and the C types of its fields. */
  predicate ValidTx(m: TxMsg) {
    && m.ide in {ID_STANDARD, ID_EXTENDED} && m.rtr in {0, 2} && m.dlc <= 8
    && (m.ide == ID_STANDARD ==> m.stdId <= 0x7FF)
    && (m.ide == ID_EXTENDED ==> m.extId <= 0x1FFF_FFFF)
    && |m.data| == 8 && forall i :: 0 <= i < 8 ==> m.data[i] < 256
  }

  function FrameOfTx(m: TxMsg): Frame {
    Frame(m.ide == ID_EXTENDED, m.rtr == 2, if m.ide == ID_STANDARD then m.stdId else m.extId, m.dlc, m.data)
  }

  function FrameOfRx(m: RxMsg): Frame {
    Frame(m.ide == ID_EXTENDED, m.rtr == 2, if m.ide == ID_STANDARD then m.stdId else m.extId, m.dlc, m.data)
  }

  // ---- the words of a mailbox ------------------------------------------------------------

  /** Identifier word, length word, low and high data words. Bit 0 of `ir` is the request bit. */
  datatype Mailbox = Mailbox(ir: Word, dtr: Word, dlr: Word, dhr: Word)

  function BytesOf(w: Word): seq<nat> {
    [Value(Field(w, 0, 8)), Value(Field(w, 8, 8)), Value(Field(w, 16, 8)), Value(Field(w, 24, 8))]
  }

  /** The frame the hardware sees in a mailbox or a FIFO slot. */
  function FrameOf(b: Mailbox): Frame {
    Frame(b.ir[2], b.ir[1],
          if b.ir[2] then Value(Field(b.ir, 3, 29)) else Value(Field(b.ir, 21, 11)),
          Value(Field(b.dtr, 0, 4)),
          BytesOf(b.dlr) + BytesOf(b.dhr))
  }

  const TXRQ: Word := Mask(0, 1)
  const DLC_CLEAR: Word := Not(Mask(0, 4))

  lemma MasksAreTheDrivers()
    ensures Value(TXRQ) == 1 && Value(DLC_CLEAR) == 0xFFFF_FFF0
  {
    SmallPowers();
    MaskValue(0, 1);
    ClearMaskValue(0, 4);
  }

  // ---- packing ---------------------------------------------------------------------------

  /** The identifier bits the driver ORs into TIR. */
  function IdBits(m: TxMsg): Word {
    if m.ide == ID_STANDARD then Or(Shl(Of(m.stdId), 21), Of(m.rtr))
    else Or(Or(Shl(Of(m.extId), 3), Of(m.ide)), Of(m.rtr))
  }

  function DataWord(b0: nat, b1: nat, b2: nat, b3: nat): Word {
    Or(Or(Or(Shl(Of(b3), 24), Shl(Of(b2), 16)), Shl(Of(b1), 8)), Of(b0))
  }

  /** The two-valued RTR and IDE codes are single bits. */
  lemma CodeWord(v: nat)
    requires v in {0, 2, 4}
    ensures Of(v) == [false, v == 2, v == 4] + Zeros(29)
  {
    assert Bits(v, 3) == [false, v == 2, v == 4];
    assert Pow2(3) == 8;
    BitsWiden(v, 3, 32);
  }

  lemma StandardIdPlaced(id: nat)
    requires id <= 0x7FF
    ensures Shl(Of(id), 21) == Placed(21, Bits(id, 11)) && Value(Bits(id, 11)) == id
  {
    assert Pow2(11) == 0x800;
    ShiftPlaces(id, 21, 11);
    FieldValue(id, 11);
  }

  lemma ExtendedIdPlaced(id: nat)
    requires id <= 0x1FFF_FFFF
    ensures Shl(Of(id), 3) == Placed(3, Bits(id, 29)) && Value(Bits(id, 29)) == id
  {
    assert Pow2(29) == 0x2000_0000 by {
      SmallPowers();
      Pow2Sum(16, 13);
    }
    ShiftPlaces(id, 3, 29);
    FieldValue(id, 29);
  }

  lemma StandardIdWord(before: Word, m: TxMsg)
    requires ValidTx(m) && m.ide == ID_STANDARD
    ensures Or(And(before, TXRQ), IdBits(m)) == [before[0], m.rtr == 2, false] + Zeros(18) + Bits(m.stdId, 11)
  {
    CodeWord(m.rtr);
    StandardIdPlaced(m.stdId);
  }

  lemma ExtendedParts(before: Word, id: seq<bool>, ide: Word, rtr: Word, remote: bool)
    requires |id| == 29 && ide == [false, false, true] + Zeros(29) && rtr == [false, remote, false] + Zeros(29)
    ensures Or(And(before, TXRQ), Or(Or(Placed(3, id), ide), rtr)) == [before[0], remote, true] + id
  {
  }

  lemma ExtendedIdWord(before: Word, m: TxMsg)
    requires ValidTx(m) && m.ide == ID_EXTENDED
    ensures Or(And(before, TXRQ), IdBits(m)) == [before[0], m.rtr == 2, true] + Bits(m.extId, 29)
  {
    CodeWord(m.rtr);
    CodeWord(m.ide);
    ExtendedIdPlaced(m.extId);
    ExtendedParts(before, Bits(m.extId, 29), Of(m.ide), Of(m.rtr), m.rtr == 2);
  }

  lemma BytePlaced(b: nat, k: nat)
    requires b < 256 && k < 4
    ensures Shl(Of(b), 8 * k) == Placed(8 * k, Bits(b, 8))
    ensures k == 0 ==> Of(b) == Placed(0, Bits(b, 8))
    ensures Value(Bits(b, 8)) == b
  {
    assert Pow2(8) == 256;
    ShiftPlaces(b, 8 * k, 8);
    BitsWiden(b, 8, 32);
    FieldValue(b, 8);
  }

  lemma FourBytes(a: seq<bool>, b: seq<bool>, c: seq<bool>, d: seq<bool>)
    requires |a| == |b| == |c| == |d| == 8
    ensures var w: Word := Or(Or(Or(Placed(24, d), Placed(16, c)), Placed(8, b)), Placed(0, a));
            Field(w, 0, 8) == a && Field(w, 8, 8) == b && Field(w, 16, 8) == c && Field(w, 24, 8) == d
  {
  }

  lemma BytesOfDataWord(b0: nat, b1: nat, b2: nat, b3: nat)
    requires b0 < 256 && b1 < 256 && b2 < 256 && b3 < 256
    ensures BytesOf(DataWord(b0, b1, b2, b3)) == [b0, b1, b2, b3]
  {
    BytePlaced(b0, 0);
    BytePlaced(b1, 1);
    BytePlaced(b2, 2);
    BytePlaced(b3, 3);
    FourBytes(Bits(b0, 8), Bits(b1, 8), Bits(b2, 8), Bits(b3, 8));
  }

  /** The words the driver leaves in a mailbox before it sets the request bit, from any earlier
      contents of the mailbox. */
  function Filled(b: Mailbox, m: TxMsg): Mailbox
    requires |m.data| == 8
  {
    Mailbox(Or(And(b.ir, TXRQ), IdBits(m)),
            Or(And(b.dtr, DLC_CLEAR), Of(m.dlc)),
            DataWord(m.data[0], m.data[1], m.data[2], m.data[3]),
            DataWord(m.data[4], m.data[5], m.data[6], m.data[7]))
  }

  lemma StandardFields(ir: Word, first: bool, remote: bool, id: seq<bool>)
    requires |id| == 11 && ir == [first, remote, false] + Zeros(18) + id
    ensures ir[0] == first && ir[1] == remote && !ir[2] && Field(ir, 21, 11) == id
  {
  }

  lemma ExtendedFields(ir: Word, first: bool, remote: bool, id: seq<bool>)
    requires |id| == 29 && ir == [first, remote, true] + id
    ensures ir[0] == first && ir[1] == remote && ir[2] && Field(ir, 3, 29) == id
  {
  }

  lemma FilledId(b: Mailbox, m: TxMsg)
    requires ValidTx(m)
    ensures var f, t := FrameOf(Filled(b, m)), FrameOfTx(m);
            f.extended == t.extended && f.remote == t.remote && f.id == t.id
    ensures Filled(b, m).ir[0] == b.ir[0]
  {
    var ir := Or(And(b.ir, TXRQ), IdBits(m));
    if m.ide == ID_STANDARD {
      StandardIdWord(b.ir, m);
      StandardIdPlaced(m.stdId);
      StandardFields(ir, b.ir[0], m.rtr == 2, Bits(m.stdId, 11));
    } else {
      ExtendedIdWord(b.ir, m);
      ExtendedIdPlaced(m.extId);
      ExtendedFields(ir, b.ir[0], m.rtr == 2, Bits(m.extId, 29));
    }
  }

  lemma FilledLength(b: Mailbox, m: TxMsg)
    requires ValidTx(m)
    ensures FrameOf(Filled(b, m)).dlc == m.dlc
  {
    LengthWord(b.dtr, m.dlc);
    FieldOfSplice(b.dtr, 0, Bits(m.dlc, 4), 0, 4);
  }

  lemma EightBytes(d: seq<nat>, low: seq<nat>, high: seq<nat>)
    requires |d| == 8 && low == [d[0], d[1], d[2], d[3]] && high == [d[4], d[5], d[6], d[7]]
    ensures low + high == d
  {
  }

  lemma FilledData(b: Mailbox, m: TxMsg)
    requires ValidTx(m)
    ensures FrameOf(Filled(b, m)).data == m.data
  {
    var low, high := BytesOf(Filled(b, m).dlr), BytesOf(Filled(b, m).dhr);
    BytesOfDataWord(m.data[0], m.data[1], m.data[2], m.data[3]);
    BytesOfDataWord(m.data[4], m.data[5], m.data[6], m.data[7]);
    EightBytes(m.data, low, high);
  }

  lemma LengthWord(w: Word, dlc: nat)
    requires dlc <= 8
    ensures Or(And(w, DLC_CLEAR), Of(dlc)) == Splice(w, 0, Bits(dlc, 4)) && Value(Bits(dlc, 4)) == dlc
  {
    assert Pow2(4) == 16;
    BitsWiden(dlc, 4, 32);
    FieldValue(dlc, 4);
  }

  /** Whatever the mailbox held, the filled mailbox holds the message's frame and no new request. */
  lemma FilledHolds(b: Mailbox, m: TxMsg)
    requires ValidTx(m)
    ensures FrameOf(Filled(b, m)) == FrameOfTx(m)
    ensures Filled(b, m).ir[0] == b.ir[0]
  {
    FilledId(b, m);
    FilledLength(b, m);
    FilledData(b, m);
  }

  /** The request bit is not part of the frame. */
  lemma RequestBitIsSeparate(b: Mailbox, request: bool)
    ensures FrameOf(b.(ir := b.ir[0 := request])) == FrameOf(b)
  {
    var ir := b.ir[0 := request];
    assert Field(ir, 3, 29) == Field(b.ir, 3, 29);
    assert Field(ir, 21, 11) == Field(b.ir, 21, 11);
  }

  /** Round trip: a message put in a mailbox in any earlier state, carried to a FIFO slot by
      copying the words (the slot's filter index and time stamp are the receiver's own), is
      received as the same frame. */
  lemma RoundTrip(b: Mailbox, m: TxMsg, slot: Mailbox, request: bool)
    requires ValidTx(m)
    requires slot.ir == Filled(b, m).ir[0 := request]
    requires Field(slot.dtr, 0, 4) == Field(Filled(b, m).dtr, 0, 4)
    requires slot.dlr == Filled(b, m).dlr && slot.dhr == Filled(b, m).dhr
    ensures FrameOf(slot) == FrameOfTx(m)
  {
    FilledHolds(b, m);
    RequestBitIsSeparate(Filled(b, m), request);
  }
}
