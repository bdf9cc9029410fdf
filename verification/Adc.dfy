/** The ADC sequencer: a 16-entry rank table, an 18-entry sample-time table, two lengths and a
    right-aligned injected sequence, packed over six registers (stm32f10x_adc.c). */
module Adc {
  import opened Words

  // The driver's masks. `MasksAreTheDrivers` gives their numbers.
  const CR1_CLEAR_MASK: Word := Not(Or(Mask(8, 1), Mask(16, 4)))
  const CR2_CLEAR_MASK: Word := Not(Or(Or(Mask(1, 1), Mask(11, 1)), Mask(17, 3)))
  const SQR1_CLEAR_MASK: Word := Not(Mask(20, 4))
  const JSQR_JL_RESET: Word := Not(Mask(20, 2))
  const JSQR_JL_SET: Word := Mask(20, 2)
  const SQ_SET: Word := Mask(0, 5)
  const SMP_SET: Word := Mask(0, 3)

  lemma MasksAreTheDrivers()
    ensures Value(SQR1_CLEAR_MASK) == 0xFF0FFFFF && Value(JSQR_JL_RESET) == 0xFFCFFFFF
    ensures Value(JSQR_JL_SET) == 0x00300000 && Value(SQ_SET) == 0x1F && Value(SMP_SET) == 0x07
  {
    SmallPowers();
    LargePowers();
    ClearMaskValue(20, 4);
    ClearMaskValue(20, 2);
    MaskValue(20, 2);
    MaskValue(0, 5);
    MaskValue(0, 3);
  }

  lemma ControlFieldMasks()
    ensures Value(Mask(8, 1)) == 0x100 && Value(Mask(16, 4)) == 0xF0000
    ensures Value(Mask(1, 1)) == 0x2 && Value(Mask(11, 1)) == 0x800 && Value(Mask(17, 3)) == 0xE0000
  {
    SmallPowers();
    Pow2Sum(16, 1);
    MaskValue(8, 1);
    MaskValue(16, 4);
    MaskValue(1, 1);
    MaskValue(11, 1);
    MaskValue(17, 3);
  }

  lemma ControlMasksAreTheDrivers()
    ensures Value(CR1_CLEAR_MASK) == 0xFFF0FEFF && Value(CR2_CLEAR_MASK) == 0xFFF1F7FD
  {
    ControlFieldMasks();
    ClearMaskValue2(8, 1, 16, 4);
    ClearMaskValue3(1, 1, 11, 1, 17, 3);
  }

  // ---- what the registers mean -----------------------------------------------------------

  datatype Registers = Registers(
    cr1: Word, cr2: Word, smpr1: Word, smpr2: Word, sqr1: Word, sqr2: Word, sqr3: Word, jsqr: Word)

  /** The tables a user of the driver thinks in. `ranks[r - 1]` is the channel of rank `r`,
      `slots[k]` the channel in injected slot `k + 1`. */
  datatype Sequencer = Sequencer(
    ranks: seq<nat>, length: nat, times: seq<nat>, slots: seq<nat>, injectedLength: nat)
  {
    ghost predicate Valid() {
      && |ranks| == 16 && |times| == 18 && |slots| == 4
      && 1 <= length <= 16 && 1 <= injectedLength <= 4
    }

    /** The hardware converts the slots that end at slot 4. */
    function Injected(): (s: seq<nat>)
      requires Valid()
      ensures |s| == injectedLength
    {
      slots[4 - injectedLength..]
    }
  }

  /** One driver call, with its parameters as numbers. */
  datatype Command =
    | Configure(mode: nat, scan: nat, continuous: nat, align: nat, trigger: nat, channels: nat)
    | Regular(channel: nat, rank: nat, time: nat)
    | InjectedLength(n: nat)
    | Injected(channel: nat, rank: nat, time: nat)

  /** The parameter ranges the driver asserts. */
  predicate InRange(c: Command) {
    match c
    case Configure(mode, scan, continuous, align, trigger, n) =>
      mode < 10 && scan < 2 && continuous < 2 && align < 2 && trigger < 8 && 1 <= n <= 16
    case Regular(channel, rank, time) => channel < 18 && 1 <= rank <= 16 && time < 8
    case InjectedLength(n) => 1 <= n <= 4
    case Injected(channel, rank, time) => channel < 18 && 1 <= rank <= 4 && time < 8
  }

  function RankOf(r: Registers, rank: nat): nat
    requires 1 <= rank <= 16
  {
    if rank < 7 then Entry(r.sqr3, rank - 1, 5)
    else if rank < 13 then Entry(r.sqr2, rank - 7, 5)
    else Entry(r.sqr1, rank - 13, 5)
  }

  function TimeOf(r: Registers, channel: nat): nat
    requires channel < 18
  {
    if channel > 9 then Entry(r.smpr1, channel - 10, 3) else Entry(r.smpr2, channel, 3)
  }

  function LengthOf(r: Registers): (n: nat)
    ensures 1 <= n <= 16
  {
    ValueBound(Field(r.sqr1, 20, 4));
    Value(Field(r.sqr1, 20, 4)) + 1
  }

  function InjectedLengthOf(jsqr: Word): (n: nat)
    ensures 1 <= n <= 4
  {
    ValueBound(Field(jsqr, 20, 2));
    Value(Field(jsqr, 20, 2)) + 1
  }

  ghost function View(r: Registers): (s: Sequencer)
    ensures s.Valid()
  {
    Sequencer(
      seq(16, i requires 0 <= i < 16 => RankOf(r, i + 1)),
      LengthOf(r),
      seq(18, i requires 0 <= i < 18 => TimeOf(r, i)),
      seq(4, i requires 0 <= i < 4 => Entry(r.jsqr, i, 5)),
      InjectedLengthOf(r.jsqr))
  }

  lemma TimeWriteWord(w: Word, slot: nat, time: nat)
    requires slot < 10 && time < 8
    ensures Or(And(w, Not(Shl(SMP_SET, slot * 3))), Shl(Of(time), slot * 3)) == Splice(w, slot * 3, Bits(time, 3))
  {
    SmallPowers();
    EntryWriteWord(w, slot, 3, time);
  }

  lemma RankWriteWord(w: Word, slot: nat, channel: nat)
    requires slot < 6 && channel < 18
    ensures Or(And(w, Not(Shl(SQ_SET, slot * 5))), Shl(Of(channel), slot * 5)) ==
            Splice(w, slot * 5, Bits(channel, 5))
  {
    SmallPowers();
    EntryWriteWord(w, slot, 5, channel);
  }

  // ---- what each write does to the tables ------------------------------------------------

  lemma ControlWord(w: Word, mode: nat, scan: nat)
    requires mode < 16 && scan < 2
    ensures Or(And(w, CR1_CLEAR_MASK), Or(Shl(Of(scan), 8), Of(mode * 0x10000))) ==
            Splice(Splice(w, 8, Bits(scan, 1)), 16, Bits(mode, 4))
  {
    SmallPowers();
    ScalePlaces(mode * 0x10000, mode, 16, 4);
    ShiftPlaces(scan, 8, 1);
    ClearAndSet2(w, 8, Bits(scan, 1), 16, Bits(mode, 4));
  }

  lemma ControlWord2(w: Word, continuous: nat, align: nat, trigger: nat)
    requires continuous < 2 && align < 2 && trigger < 8
    ensures Or(And(w, CR2_CLEAR_MASK), Or(Or(Shl(Of(continuous), 1), Of(align * 0x800)), Of(trigger * 0x20000))) ==
            Splice(Splice(Splice(w, 1, Bits(continuous, 1)), 11, Bits(align, 1)), 17, Bits(trigger, 3))
  {
    SmallPowers();
    Pow2Sum(16, 1);
    ShiftPlaces(continuous, 1, 1);
    ScalePlaces(align * 0x800, align, 11, 1);
    ScalePlaces(trigger * 0x20000, trigger, 17, 3);
    ClearAndSet3(w, 1, Bits(continuous, 1), 11, Bits(align, 1), 17, Bits(trigger, 3));
  }

  lemma LengthWord(w: Word, channels: nat)
    requires 1 <= channels <= 16
    ensures Or(And(w, SQR1_CLEAR_MASK), Shl(Of(channels - 1), 20)) == Splice(w, 20, Bits(channels - 1, 4))
  {
    SmallPowers();
    ShiftPlaces(channels - 1, 20, 4);
    ClearAndSet(w, 20, Bits(channels - 1, 4));
  }

  lemma LengthWritten(r: Registers, r': Registers, channels: nat)
    requires 1 <= channels <= 16
    requires r'.(cr1 := r.cr1, cr2 := r.cr2) == r.(sqr1 := Splice(r.sqr1, 20, Bits(channels - 1, 4)))
    ensures View(r') == View(r).(length := channels)
  {
    var f := Bits(channels - 1, 4);
    assert Value(f) == channels - 1 by {
      SmallPowers();
      FieldValue(channels - 1, 4);
    }
    FieldOfSplice(r.sqr1, 20, f, 20, 4);
    forall rank | 1 <= rank <= 16 ensures RankOf(r', rank) == RankOf(r, rank) {
      if 13 <= rank {
        FieldOfSplice(r.sqr1, 20, f, (rank - 13) * 5, 5);
      }
    }
    assert View(r').ranks == View(r).ranks;
  }

  /** Where the driver stores the channel of a rank: which word, which slot. */
  function RankWritten(r: Registers, channel: nat, rank: nat): Registers
    requires 1 <= rank <= 16
  {
    var f := Bits(channel, 5);
    if rank < 7 then r.(sqr3 := Splice(r.sqr3, (rank - 1) * 5, f))
    else if rank < 13 then r.(sqr2 := Splice(r.sqr2, (rank - 7) * 5, f))
    else r.(sqr1 := Splice(r.sqr1, (rank - 13) * 5, f))
  }

  function TimeWritten(r: Registers, channel: nat, time: nat): Registers
    requires channel < 18
  {
    var f := Bits(time, 3);
    if channel > 9 then r.(smpr1 := Splice(r.smpr1, (channel - 10) * 3, f))
    else r.(smpr2 := Splice(r.smpr2, channel * 3, f))
  }

  lemma RankView(r: Registers, channel: nat, rank: nat)
    requires 1 <= rank <= 16 && channel < 18
    ensures View(RankWritten(r, channel, rank)) == View(r).(ranks := View(r).ranks[rank - 1 := channel])
  {
    var r' := RankWritten(r, channel, rank);
    forall k | 1 <= k <= 16 ensures RankOf(r', k) == if k == rank then channel else RankOf(r, k) {
      RankAfter(r, channel, rank, k);
    }
    if 13 <= rank {
      FieldOfSplice(r.sqr1, (rank - 13) * 5, Bits(channel, 5), 20, 4);
    }
    assert View(r').ranks == View(r).ranks[rank - 1 := channel];
  }

  lemma RankAfter(r: Registers, channel: nat, rank: nat, k: nat)
    requires 1 <= rank <= 16 && 1 <= k <= 16 && channel < 18
    ensures RankOf(RankWritten(r, channel, rank), k) == if k == rank then channel else RankOf(r, k)
  {
    if rank < 7 {
      RankAfterFirst(r, channel, rank, k);
    } else if rank < 13 {
      RankAfterSecond(r, channel, rank, k);
    } else {
      RankAfterThird(r, channel, rank, k);
    }
  }

  lemma ChannelWritten(w: Word, slot: nat, channel: nat, other: nat)
    requires slot < 6 && other < 6 && channel < 18
    ensures Entry(Splice(w, slot * 5, Bits(channel, 5)), other, 5) ==
            if other == slot then channel else Entry(w, other, 5)
  {
    SmallPowers();
    EntryWritten(w, slot, 5, channel, other);
  }

  lemma RankAfterFirst(r: Registers, channel: nat, rank: nat, k: nat)
    requires 1 <= rank < 7 && 1 <= k <= 16 && channel < 18
    ensures RankOf(RankWritten(r, channel, rank), k) == if k == rank then channel else RankOf(r, k)
  {
    if k < 7 {
      ChannelWritten(r.sqr3, rank - 1, channel, k - 1);
    }
  }

  lemma RankAfterSecond(r: Registers, channel: nat, rank: nat, k: nat)
    requires 7 <= rank < 13 && 1 <= k <= 16 && channel < 18
    ensures RankOf(RankWritten(r, channel, rank), k) == if k == rank then channel else RankOf(r, k)
  {
    if 7 <= k < 13 {
      ChannelWritten(r.sqr2, rank - 7, channel, k - 7);
    }
  }

  lemma RankAfterThird(r: Registers, channel: nat, rank: nat, k: nat)
    requires 13 <= rank <= 16 && 1 <= k <= 16 && channel < 18
    ensures RankOf(RankWritten(r, channel, rank), k) == if k == rank then channel else RankOf(r, k)
  {
    if 13 <= k {
      ChannelWritten(r.sqr1, rank - 13, channel, k - 13);
    }
  }

  lemma TimeView(r: Registers, channel: nat, time: nat)
    requires channel < 18 && time < 8
    ensures View(TimeWritten(r, channel, time)) == View(r).(times := View(r).times[channel := time])
  {
    var r' := TimeWritten(r, channel, time);
    SmallPowers();
    forall k | 0 <= k < 18 ensures TimeOf(r', k) == if k == channel then time else TimeOf(r, k) {
      if channel > 9 && k > 9 {
        EntryWritten(r.smpr1, channel - 10, 3, time, k - 10);
      } else if channel <= 9 && k <= 9 {
        EntryWritten(r.smpr2, channel, 3, time, k);
      }
    }
    assert View(r').times == View(r).times[channel := time];
  }

  lemma InjectedLengthWord(w: Word, length: nat)
    requires 1 <= length <= 4
    ensures Or(And(w, JSQR_JL_RESET), Shl(Of(length - 1), 20)) == Splice(w, 20, Bits(length - 1, 2))
  {
    SmallPowers();
    ShiftPlaces(length - 1, 20, 2);
    ClearAndSet(w, 20, Bits(length - 1, 2));
  }

  lemma InjectedLengthView(r: Registers, length: nat)
    requires 1 <= length <= 4
    ensures View(r.(jsqr := Splice(r.jsqr, 20, Bits(length - 1, 2)))) == View(r).(injectedLength := length)
  {
    var f := Bits(length - 1, 2);
    var r' := r.(jsqr := Splice(r.jsqr, 20, f));
    assert Value(f) == length - 1 by {
      SmallPowers();
      FieldValue(length - 1, 2);
    }
    FieldOfSplice(r.jsqr, 20, f, 20, 2);
    forall k | 0 <= k < 4 ensures Entry(r'.jsqr, k, 5) == Entry(r.jsqr, k, 5) {
      FieldOfSplice(r.jsqr, 20, f, k * 5, 5);
    }
    assert View(r').slots == View(r).slots;
  }

  lemma InjectedLengthRead(w: Word)
    ensures Value(Shr(And(w, JSQR_JL_SET), 20)) == InjectedLengthOf(w) - 1
  {
    ShiftAndMask(w, 20, 2);
  }

  lemma InjectedWriteWord(w: Word, channel: nat, rank: nat, pos: nat)
    requires channel < 18 && 1 <= rank <= 4 && pos == 5 * (rank + 3 - InjectedLengthOf(w))
    ensures Or(And(w, Not(Shl(SQ_SET, pos))), Shl(Of(channel), pos)) == InjectedWord(w, channel, rank)
  {
    SmallPowers();
    BitsWiden(channel, 5, 32);
  }

  lemma InjectedWordInRange(w: Word, channel: nat, rank: nat)
    requires channel < 18 && 1 <= rank <= InjectedLengthOf(w)
    ensures InjectedWord(w, channel, rank) == Splice(w, (rank + 3 - InjectedLengthOf(w)) * 5, Bits(channel, 5))
  {
  }

  lemma InjectedView(r: Registers, channel: nat, rank: nat)
    requires channel < 18 && 1 <= rank <= InjectedLengthOf(r.jsqr)
    ensures View(r.(jsqr := InjectedWord(r.jsqr, channel, rank))) ==
            View(r).(slots := View(r).slots[rank + 3 - InjectedLengthOf(r.jsqr) := channel])
  {
    InjectedWordInRange(r.jsqr, channel, rank);
    SlotView(r, rank + 3 - InjectedLengthOf(r.jsqr), channel);
  }

  /** A rank beyond the stored length leaves the four slots alone; the first one past the end writes its
      channel's low bits into the length field. */
  lemma InjectedBeyond(r: Registers, channel: nat, rank: nat)
    requires channel < 18 && InjectedLengthOf(r.jsqr) < rank <= 4
    ensures View(r.(jsqr := InjectedWord(r.jsqr, channel, rank))) ==
            View(r).(injectedLength :=
              if rank == InjectedLengthOf(r.jsqr) + 1 then channel % 4 + 1 else InjectedLengthOf(r.jsqr))
  {
    var r' := r.(jsqr := InjectedWord(r.jsqr, channel, rank));
    LengthBeyond(r.jsqr, channel, rank);
    forall k | 0 <= k < 4 ensures Entry(r'.jsqr, k, 5) == Entry(r.jsqr, k, 5) {
      assert Field(r'.jsqr, k * 5, 5) == Field(r.jsqr, k * 5, 5);
    }
    assert View(r').slots == View(r).slots;
  }

  lemma LengthBeyond(jsqr: Word, channel: nat, rank: nat)
    requires channel < 18 && InjectedLengthOf(jsqr) < rank <= 4
    ensures InjectedLengthOf(InjectedWord(jsqr, channel, rank)) ==
            if rank == InjectedLengthOf(jsqr) + 1 then channel % 4 + 1 else InjectedLengthOf(jsqr)
  {
    var before, after := Field(jsqr, 20, 2), Field(InjectedWord(jsqr, channel, rank), 20, 2);
    if rank == InjectedLengthOf(jsqr) + 1 {
      assert after == Bits(channel, 5)[..2];
      BitsPrefix(channel, 5, 2);
      ValueOfBits(channel, 2);
      SmallPowers();
    } else {
      assert after == before;
    }
  }

  lemma SlotView(r: Registers, slot: nat, channel: nat)
    requires channel < 18 && slot < 4
    ensures View(r.(jsqr := Splice(r.jsqr, slot * 5, Bits(channel, 5)))) ==
            View(r).(slots := View(r).slots[slot := channel])
  {
    var f := Bits(channel, 5);
    var r' := r.(jsqr := Splice(r.jsqr, slot * 5, f));
    assert channel < Pow2(5) by {
      SmallPowers();
    }
    forall k | 0 <= k < 4 ensures Entry(r'.jsqr, k, 5) == if k == slot then channel else Entry(r.jsqr, k, 5) {
      EntryWritten(r.jsqr, slot, 5, channel, k);
    }
    FieldOfSplice(r.jsqr, slot * 5, f, 20, 2);
    assert View(r').slots == View(r).slots[slot := channel];
  }

  /** JSQR after a rank has been configured: five bits at a place that depends on the length
      stored in the word itself. Bits shifted past bit 31 are lost. */
  function InjectedWord(jsqr: Word, channel: nat, rank: nat): Word
    requires 1 <= rank <= 4
  {
    var pos := 5 * (rank + 3 - InjectedLengthOf(jsqr));
    seq(32, i requires 0 <= i < 32 => if pos <= i < pos + 5 then Bits(channel, 5)[i - pos] else jsqr[i])
  }

  function Configured(
    r: Registers, mode: nat, scan: nat, continuous: nat, align: nat, trigger: nat, channels: nat): Registers
    requires channels >= 1
  {
    r.(cr1 := Splice(Splice(r.cr1, 8, Bits(scan, 1)), 16, Bits(mode, 4)),
       cr2 := Splice(Splice(Splice(r.cr2, 1, Bits(continuous, 1)), 11, Bits(align, 1)), 17, Bits(trigger, 3)),
       sqr1 := Splice(r.sqr1, 20, Bits(channels - 1, 4)))
  }

  /** What one driver call does to the registers. */
  function Apply(r: Registers, c: Command): Registers
    requires InRange(c)
  {
    match c
    case Configure(mode, scan, continuous, align, trigger, channels) =>
      Configured(r, mode, scan, continuous, align, trigger, channels)
    case Regular(channel, rank, time) => RankWritten(TimeWritten(r, channel, time), channel, rank)
    case InjectedLength(n) => r.(jsqr := Splice(r.jsqr, 20, Bits(n - 1, 2)))
    case Injected(channel, rank, time) =>
      TimeWritten(r, channel, time).(jsqr := InjectedWord(r.jsqr, channel, rank))
  }

  class Peripheral {
    var CR1: Word
    var CR2: Word
    var SMPR1: Word
    var SMPR2: Word
    var SQR1: Word
    var SQR2: Word
    var SQR3: Word
    var JSQR: Word

    ghost function Regs(): Registers
      reads this
    {
      Registers(CR1, CR2, SMPR1, SMPR2, SQR1, SQR2, SQR3, JSQR)
    }

    /** ADC_Init: two fields of CR1, three of CR2, and the regular length. */
    method Init(mode: nat, scan: nat, continuous: nat, align: nat, trigger: nat, channels: nat)
      requires InRange(Configure(mode, scan, continuous, align, trigger, channels))
      modifies this
      ensures CR1 == Splice(Splice(old(CR1), 8, Bits(scan, 1)), 16, Bits(mode, 4))
      ensures CR2 == Splice(Splice(Splice(old(CR2), 1, Bits(continuous, 1)), 11, Bits(align, 1)), 17, Bits(trigger, 3))
      ensures SQR1 == Splice(old(SQR1), 20, Bits(channels - 1, 4))
      ensures Regs() == old(Regs()).(cr1 := CR1, cr2 := CR2, sqr1 := SQR1)
    {
      var tmpreg1 := CR1;
      tmpreg1 := And(tmpreg1, CR1_CLEAR_MASK);
      tmpreg1 := Or(tmpreg1, Or(Shl(Of(scan), 8), Of(mode * 0x10000)));
      CR1 := tmpreg1;
      ControlWord(old(CR1), mode, scan);

      tmpreg1 := CR2;
      tmpreg1 := And(tmpreg1, CR2_CLEAR_MASK);
      tmpreg1 := Or(tmpreg1, Or(Or(Shl(Of(continuous), 1), Of(align * 0x800)), Of(trigger * 0x20000)));
      CR2 := tmpreg1;
      ControlWord2(old(CR2), continuous, align, trigger);

      tmpreg1 := SQR1;
      tmpreg1 := And(tmpreg1, SQR1_CLEAR_MASK);
      var tmpreg2 := channels - 1;
      tmpreg1 := Or(tmpreg1, Shl(Of(tmpreg2), 20));
      SQR1 := tmpreg1;
      LengthWord(old(SQR1), channels);
    }

    /** The sample-time half of both channel configuration functions. */
    method SetSampleTime(channel: nat, time: nat)
      requires channel < 18 && time < 8
      modifies this
      ensures Regs() == TimeWritten(old(Regs()), channel, time)
      ensures SMPR1 == if channel > 9 then Splice(old(SMPR1), 3 * (channel - 10), Bits(time, 3)) else old(SMPR1)
      ensures SMPR2 == if channel > 9 then old(SMPR2) else Splice(old(SMPR2), 3 * channel, Bits(time, 3))
    {
      if channel > 9 {
        var tmpreg1 := SMPR1;
        var tmpreg2 := Shl(SMP_SET, (channel - 10) * 3);
        tmpreg1 := And(tmpreg1, Not(tmpreg2));
        tmpreg2 := Shl(Of(time), (channel - 10) * 3);
        tmpreg1 := Or(tmpreg1, tmpreg2);
        SMPR1 := tmpreg1;
        TimeWriteWord(old(SMPR1), channel - 10, time);
      } else {
        var tmpreg1 := SMPR2;
        var tmpreg2 := Shl(SMP_SET, channel * 3);
        tmpreg1 := And(tmpreg1, Not(tmpreg2));
        tmpreg2 := Shl(Of(time), channel * 3);
        tmpreg1 := Or(tmpreg1, tmpreg2);
        SMPR2 := tmpreg1;
        TimeWriteWord(old(SMPR2), channel, time);
      }
    }

    method RegularChannelConfig(channel: nat, rank: nat, time: nat)
      requires InRange(Regular(channel, rank, time))
      modifies this
      ensures Regs() == RankWritten(TimeWritten(old(Regs()), channel, time), channel, rank)
      ensures SQR3 == if rank < 7 then Splice(old(SQR3), 5 * (rank - 1), Bits(channel, 5)) else old(SQR3)
      ensures SQR2 == if 7 <= rank < 13 then Splice(old(SQR2), 5 * (rank - 7), Bits(channel, 5)) else old(SQR2)
      ensures SQR1 == if 13 <= rank then Splice(old(SQR1), 5 * (rank - 13), Bits(channel, 5)) else old(SQR1)
    {
      SetSampleTime(channel, time);
      if rank < 7 {
        var tmpreg1 := SQR3;
        var tmpreg2 := Shl(SQ_SET, (rank - 1) * 5);
        tmpreg1 := And(tmpreg1, Not(tmpreg2));
        tmpreg2 := Shl(Of(channel), (rank - 1) * 5);
        tmpreg1 := Or(tmpreg1, tmpreg2);
        SQR3 := tmpreg1;
        RankWriteWord(old(SQR3), rank - 1, channel);
      } else if rank < 13 {
        var tmpreg1 := SQR2;
        var tmpreg2 := Shl(SQ_SET, (rank - 7) * 5);
        tmpreg1 := And(tmpreg1, Not(tmpreg2));
        tmpreg2 := Shl(Of(channel), (rank - 7) * 5);
        tmpreg1 := Or(tmpreg1, tmpreg2);
        SQR2 := tmpreg1;
        RankWriteWord(old(SQR2), rank - 7, channel);
      } else {
        var tmpreg1 := SQR1;
        var tmpreg2 := Shl(SQ_SET, (rank - 13) * 5);
        tmpreg1 := And(tmpreg1, Not(tmpreg2));
        tmpreg2 := Shl(Of(channel), (rank - 13) * 5);
        tmpreg1 := Or(tmpreg1, tmpreg2);
        SQR1 := tmpreg1;
        RankWriteWord(old(SQR1), rank - 13, channel);
      }
    }

    method InjectedSequencerLengthConfig(length: nat)
      requires InRange(InjectedLength(length))
      modifies this
      ensures Regs() == old(Regs()).(jsqr := Splice(old(JSQR), 20, Bits(length - 1, 2)))
    {
      var tmpreg1 := JSQR;
      tmpreg1 := And(tmpreg1, JSQR_JL_RESET);
      var tmpreg2 := length - 1;
      tmpreg1 := Or(tmpreg1, Shl(Of(tmpreg2), 20));
      JSQR := tmpreg1;
      InjectedLengthWord(old(JSQR), length);
    }

    /** The slot of an injected rank: right-aligned by the stored length, in the byte arithmetic of the driver. */
    method InjectedPlace(jsqr: Word, rank: nat) returns (pos: nat)
      requires 1 <= rank <= 4
      ensures pos == 5 * (rank + 3 - InjectedLengthOf(jsqr))
    {
      var tmpreg3 := Value(Shr(And(jsqr, JSQR_JL_SET), 20));
      InjectedLengthRead(jsqr);
      pos := 5 * (((rank + 3) - (tmpreg3 + 1)) % 256);
    }

    method InjectedChannelConfig(channel: nat, rank: nat, time: nat)
      requires InRange(Injected(channel, rank, time))
      modifies this
      ensures Regs() == TimeWritten(old(Regs()), channel, time).(jsqr := InjectedWord(old(JSQR), channel, rank))
      ensures var n := Value(Field(old(JSQR), 20, 2)) + 1;
              rank <= n ==> n <= 4 && JSQR == Splice(old(JSQR), 5 * (4 - n + rank - 1), Bits(channel, 5))
    {
      SetSampleTime(channel, time);
      var tmpreg1 := JSQR;
      if rank <= InjectedLengthOf(tmpreg1) {
        InjectedWordInRange(tmpreg1, channel, rank);
      }
      var pos := InjectedPlace(tmpreg1, rank);
      InjectedWriteWord(tmpreg1, channel, rank, pos);
      var tmpreg2 := Shl(SQ_SET, pos);
      tmpreg1 := And(tmpreg1, Not(tmpreg2));
      tmpreg2 := Shl(Of(channel), pos);
      tmpreg1 := Or(tmpreg1, tmpreg2);
      JSQR := tmpreg1;
    }

    method Call(c: Command)
      requires InRange(c)
      modifies this
      ensures Regs() == Apply(old(Regs()), c)
    {
      match c {
        case Configure(mode, scan, continuous, align, trigger, n) =>
          Init(mode, scan, continuous, align, trigger, n);
        case Regular(channel, rank, time) => RegularChannelConfig(channel, rank, time);
        case InjectedLength(n) => InjectedSequencerLengthConfig(n);
        case Injected(channel, rank, time) => InjectedChannelConfig(channel, rank, time);
      }
    }

    /** Any run of driver calls leaves the registers holding the tables the calls describe. */
    method Run(cs: seq<Command>)
      requires AllInRange(cs)
      modifies this
      ensures View(Regs()) == After(View(old(Regs())), cs)
    {
      ghost var start := View(Regs());
      for i := 0 to |cs|
        invariant View(Regs()) == After(start, cs[..i])
      {
        assert cs[..i + 1][..i] == cs[..i];
        ApplyRefinesStep(Regs(), cs[i]);
        Call(cs[i]);
      }
      assert cs[..|cs|] == cs;
    }
  }

  // ---- runs ------------------------------------------------------------------------------

  ghost predicate AllInRange(cs: seq<Command>) {
    forall c :: c in cs ==> InRange(c)
  }

  /** An injected rank within the stored length fills the slot that ends the sequence there; the first
      one past the end overwrites the length instead, and one further out is lost. */
  ghost function InjectedStep(s: Sequencer, channel: nat, rank: nat): (s': Sequencer)
    requires s.Valid() && 1 <= rank <= 4
    ensures s'.Valid()
  {
    if rank <= s.injectedLength then s.(slots := s.slots[rank + 3 - s.injectedLength := channel])
    else if rank == s.injectedLength + 1 then s.(injectedLength := channel % 4 + 1)
    else s
  }

  /** One driver call as an update of the tables. */
  ghost function Step(s: Sequencer, c: Command): (s': Sequencer)
    requires s.Valid() && InRange(c)
    ensures s'.Valid()
  {
    match c
    case Configure(_, _, _, _, _, n) => s.(length := n)
    case Regular(channel, rank, time) => s.(ranks := s.ranks[rank - 1 := channel], times := s.times[channel := time])
    case InjectedLength(n) => s.(injectedLength := n)
    case Injected(channel, rank, time) => InjectedStep(s.(times := s.times[channel := time]), channel, rank)
  }

  /** On the tables, the packed registers behave as plain arrays. */
  lemma ApplyRefinesStep(r: Registers, c: Command)
    requires InRange(c)
    ensures View(Apply(r, c)) == Step(View(r), c)
  {
    match c
    case Configure(_, _, _, _, _, n) => LengthWritten(r, Apply(r, c), n);
    case Regular(channel, rank, time) =>
      TimeView(r, channel, time);
      RankView(TimeWritten(r, channel, time), channel, rank);
    case InjectedLength(n) => InjectedLengthView(r, n);
    case Injected(channel, rank, time) => InjectedRefines(r, channel, rank, time);
  }

  lemma InjectedRefines(r: Registers, channel: nat, rank: nat, time: nat)
    requires InRange(Injected(channel, rank, time))
    ensures View(Apply(r, Injected(channel, rank, time))) == Step(View(r), Injected(channel, rank, time))
  {
    var r' := TimeWritten(r, channel, time);
    TimeView(r, channel, time);
    if rank <= InjectedLengthOf(r.jsqr) {
      InjectedView(r', channel, rank);
    } else {
      InjectedBeyond(r', channel, rank);
    }
  }

  ghost function After(s: Sequencer, cs: seq<Command>): (s': Sequencer)
    requires s.Valid() && AllInRange(cs)
    ensures s'.Valid()
  {
    if cs == [] then s else Step(After(s, cs[..|cs| - 1]), cs[|cs| - 1])
  }

  /** The channel of the last command of a run that configured a rank. */
  ghost function LastRank(cs: seq<Command>, rank: nat, before: nat): nat {
    if cs == [] then before
    else var c := cs[|cs| - 1];
      if c.Regular? && c.rank == rank then c.channel else LastRank(cs[..|cs| - 1], rank, before)
  }

  ghost function LastTime(cs: seq<Command>, channel: nat, before: nat): nat {
    if cs == [] then before
    else var c := cs[|cs| - 1];
      if (c.Regular? || c.Injected?) && c.channel == channel then c.time else LastTime(cs[..|cs| - 1], channel, before)
  }

  ghost function LastLength(cs: seq<Command>, before: nat): nat {
    if cs == [] then before
    else var c := cs[|cs| - 1];
      if c.Configure? then c.channels else LastLength(cs[..|cs| - 1], before)
  }

  ghost function LastInjected(cs: seq<Command>, rank: nat, before: nat): nat {
    if cs == [] then before
    else var c := cs[|cs| - 1];
      if c.Injected? && c.rank == rank then c.channel else LastInjected(cs[..|cs| - 1], rank, before)
  }

  /** After any run, every rank, every sample time and the length hold the last value written. */
  lemma {:induction false} LastWriterWins(s: Sequencer, cs: seq<Command>)
    requires s.Valid() && AllInRange(cs)
    ensures forall k :: 0 <= k < 16 ==> After(s, cs).ranks[k] == LastRank(cs, k + 1, s.ranks[k])
    ensures forall channel :: 0 <= channel < 18 ==>
              After(s, cs).times[channel] == LastTime(cs, channel, s.times[channel])
    ensures After(s, cs).length == LastLength(cs, s.length)
    decreases |cs|
  {
    if cs != [] {
      assert InRange(cs[|cs| - 1]);
      LastWriterWins(s, cs[..|cs| - 1]);
    }
  }

  lemma WithinLength(s: Sequencer, c: Command)
    requires s.Valid() && InRange(c) && !c.InjectedLength? && (c.Injected? ==> c.rank <= s.injectedLength)
    ensures Step(s, c).injectedLength == s.injectedLength
    ensures forall k :: 0 <= k < s.injectedLength ==>
      Step(s, c).Injected()[k] == if c.Injected? && c.rank == k + 1 then c.channel else s.Injected()[k]
  {
  }

  /** Setting the injected length and then configuring its ranks, in any order and with repeats,
      interleaved with any regular configuration, gives the right-aligned sequence. */
  lemma {:induction false} InjectedSequence(s: Sequencer, n: nat, cs: seq<Command>)
    requires s.Valid() && 1 <= n <= 4 && AllInRange(cs)
    requires forall c :: c in cs ==> !c.InjectedLength? && (c.Injected? ==> c.rank <= n)
    ensures After(s, [InjectedLength(n)] + cs).injectedLength == n
    ensures forall k :: 0 <= k < n ==>
      After(s, [InjectedLength(n)] + cs).Injected()[k] == LastInjected(cs, k + 1, s.slots[4 - n + k])
    decreases |cs|
  {
    var run := [InjectedLength(n)] + cs;
    if cs == [] {
      assert run[..0] == [];
    } else {
      var most, last := cs[..|cs| - 1], cs[|cs| - 1];
      InjectedSequence(s, n, most);
      assert run[..|run| - 1] == [InjectedLength(n)] + most && run[|run| - 1] == last;
      assert last in cs;
      WithinLength(After(s, [InjectedLength(n)] + most), last);
    }
  }

  /** An injected rank beyond the stored length lands above slot 4. The length field survives
      exactly when the rank is not the first one past the end, or the channel's low bits happen
      to repeat it. */
  lemma InjectedLengthKept(jsqr: Word, channel: nat, rank: nat)
    requires channel < 18 && 1 <= rank <= 4
    ensures InjectedLengthOf(InjectedWord(jsqr, channel, rank)) == InjectedLengthOf(jsqr) <==>
            rank != InjectedLengthOf(jsqr) + 1 || channel % 4 == InjectedLengthOf(jsqr) - 1
  {
    if rank > InjectedLengthOf(jsqr) {
      LengthBeyond(jsqr, channel, rank);
    } else {
      assert Field(InjectedWord(jsqr, channel, rank), 20, 2) == Field(jsqr, 20, 2);
    }
  }
}
