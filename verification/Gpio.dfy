/** Port configuration: GPIO_Init with its two pin loops, and the bit set and reset functions
    (stm32f10x_gpio.c). */
module Gpio {
  import opened Words

  const MODE_AIN := 0x00
  const MODE_IN_FLOATING := 0x04
  const MODE_IPD := 0x28
  const MODE_IPU := 0x48
  const MODE_OUT_OD := 0x14
  const MODE_OUT_PP := 0x10
  const MODE_AF_OD := 0x1C
  const MODE_AF_PP := 0x18

  predicate IsInput(mode: nat) {
    mode == MODE_AIN || mode == MODE_IN_FLOATING || mode == MODE_IPD || mode == MODE_IPU
  }

  predicate IsOutput(mode: nat) {
    mode == MODE_OUT_OD || mode == MODE_OUT_PP || mode == MODE_AF_OD || mode == MODE_AF_PP
  }

  /** What the driver asserts of a mode; the speed is only looked at for an output. */
  predicate InRange(mode: nat, speed: nat) {
    IsInput(mode) || (IsOutput(mode) && 1 <= speed <= 3)
  }

  /** A set of port pins as the driver's 16-bit mask. */
  predicate IsPins(pins: Word) {
    forall k :: 16 <= k < 32 ==> !pins[k]
  }

  /** The number a pin's four configuration bits get: the low four bits of the mode and, where the
      mode's fifth bit marks an output, the speed in the two lowest of them. */
  function NibbleOf(mode: nat, speed: nat): nat {
    mode % 16 + if (mode / 16) % 2 == 1 then speed else 0
  }

  /** What configuring a pin does to its output bit: the pull direction of an input is selected by
      that bit. */
  function OutputAfter(mode: nat, before: bool): bool {
    if mode == MODE_IPD then false else if mode == MODE_IPU then true else before
  }

  const ONE: Word := Mask(0, 1)
  const NIBBLE: Word := Mask(0, 4)
  const OUTPUT_FLAG: Word := Mask(4, 1)

  // ---- the mode nibble -------------------------------------------------------------------

  lemma LowNibble(mode: nat)
    ensures And(Of(mode), NIBBLE) == Of(mode % 16)
  {
    var low := Bits(mode, 4);
    BitsPrefix(mode, 32, 4);
    assert And(Of(mode), NIBBLE) == low + Zeros(28);
    ValueOfBits(mode, 4);
    assert Pow2(4) == 16;
    BitsOfValue(low);
    BitsWiden(mode % 16, 4, 32);
  }

  lemma FifthBit(mode: nat)
    ensures Of(mode)[4] <==> (mode / 16) % 2 == 1
  {
    assert Bits(mode, 32)[4] == Bits(mode / 2, 31)[3] == Bits(mode / 2 / 2, 30)[2] == Bits(mode / 2 / 2 / 2, 29)[1]
           == Bits(mode / 2 / 2 / 2 / 2, 28)[0];
    assert mode / 2 / 2 / 2 / 2 == mode / 16;
  }

  /** The fifth bit of a mode marks the outputs, and the two lowest bits are free for a speed. */
  lemma ModeCodes(mode: nat)
    requires IsInput(mode) || IsOutput(mode)
    ensures IsOutput(mode) <==> (mode / 16) % 2 == 1
    ensures mode % 16 == 4 * (mode % 16 / 4)
  {
  }

  /** The upper half of the nibble is the configuration of the mode, the lower half the speed of an output. */
  lemma NibbleParts(mode: nat, speed: nat)
    requires InRange(mode, speed)
    ensures NibbleOf(mode, speed) / 4 == mode / 4 % 4
    ensures NibbleOf(mode, speed) % 4 == if IsOutput(mode) then speed else 0
  {
    ModeCodes(mode);
  }

  lemma OutputTest(mode: nat)
    ensures And(Of(mode), OUTPUT_FLAG) != Zeros(32) <==> (mode / 16) % 2 == 1
  {
    FifthBit(mode);
    OneBit(Of(mode), 4);
  }

  /** Low mode bits and a speed do not overlap. */
  lemma SpeedJoins(low: nat, speed: nat)
    requires low < 16 && low == 4 * (low / 4) && speed < 4
    ensures Or(Of(low), Of(speed)) == Of(low + speed)
  {
    assert Pow2(2) == 4;
    BitsScaled(low / 4, 2, 32);
    BitsWiden(speed, 2, 32);
    ValueOf(low);
    ValueOf(speed);
    UnionIs(Of(low), Of(speed), low + speed);
  }

  lemma UnionIs(a: Word, b: Word, sum: nat)
    requires forall i :: 0 <= i < 32 ==> !(a[i] && b[i])
    requires Value(a) + Value(b) == sum
    ensures Or(a, b) == Of(sum)
  {
    UnionValue(a, b);
    OfValue(Or(a, b));
  }

  // ---- the pin loops ---------------------------------------------------------------------

  lemma PinTest(pins: Word, k: nat)
    requires k < 32
    ensures And(pins, Shl(ONE, k)) == Shl(ONE, k) <==> pins[k]
  {
    assert Shl(ONE, k)[k];
    assert And(pins, Shl(ONE, k))[k] == pins[k];
  }

  lemma NibbleWritten(w: Word, k: nat, nib: nat)
    requires k < 8 && nib < 16
    ensures var w' := Or(And(w, Not(Shl(NIBBLE, k * 4))), Shl(Of(nib), k * 4));
            forall j :: 0 <= j < 8 ==> Entry(w', j, 4) == if j == k then nib else Entry(w, j, 4)
  {
    assert Pow2(4) == 16;
    EntryWriteWord(w, k, 4, nib);
    forall j | 0 <= j < 8
      ensures Entry(Splice(w, k * 4, Bits(nib, 4)), j, 4) == if j == k then nib else Entry(w, j, 4)
    {
      EntryWritten(w, k, 4, nib, j);
    }
  }

  /** The output register after a write of BRR, and after a write of BSRR, whose high half clears
      bits and whose low half sets them with priority. */
  function Reset(odr: Word, v: Word): Word {
    seq(32, k requires 0 <= k < 32 => odr[k] && !(k < 16 && v[k]))
  }

  function SetReset(odr: Word, v: Word): Word {
    seq(32, k requires 0 <= k < 32 => if k < 16 then v[k] || (odr[k] && !v[k + 16]) else odr[k])
  }

  lemma OnePinWritten(odr: Word, k: nat)
    requires k < 16
    ensures Reset(odr, Shl(ONE, k)) == odr[k := false] && SetReset(odr, Shl(ONE, k)) == odr[k := true]
  {
  }

  class Port {
    var CRL: Word
    var CRH: Word
    var ODR: Word

    /** The four configuration bits of a pin. */
    ghost function ConfigOf(k: nat): nat
      requires k < 16
      reads this
    {
      if k < 8 then Entry(CRL, k, 4) else Entry(CRH, k - 8, 4)
    }

    /** The pull selection of one pin. */
    method Pull(mode: nat, k: nat)
      requires k < 16
      modifies this`ODR
      ensures ODR == old(ODR)[k := OutputAfter(mode, old(ODR)[k])]
    {
      OnePinWritten(ODR, k);
      if mode == MODE_IPD {
        ODR := Reset(ODR, Shl(ONE, k));
      } else {
        if mode == MODE_IPU {
          ODR := SetReset(ODR, Shl(ONE, k));
        }
      }
    }

    /** The body of a loop: one pin. */
    method Pin(pins: Word, mode: nat, currentmode: Word, ghost nib: nat, base: nat, pinpos: nat, before: Word)
      returns (tmpreg: Word)
      requires base <= 8 && pinpos < 8 && nib < 16 && currentmode == Of(nib)
      modifies this`ODR
      ensures forall j :: 0 <= j < 8 ==>
        Entry(tmpreg, j, 4) == if j == pinpos && pins[base + j] then nib else Entry(before, j, 4)
      ensures ODR == if pins[base + pinpos]
        then old(ODR)[base + pinpos := OutputAfter(mode, old(ODR)[base + pinpos])] else old(ODR)
    {
      tmpreg := before;
      var pos := Shl(ONE, pinpos + base);
      var currentpin := And(pins, pos);
      PinTest(pins, pinpos + base);
      if currentpin == pos {
        NibbleWritten(tmpreg, pinpos, nib);
        var pinmask := Shl(NIBBLE, pinpos * 4);
        tmpreg := And(tmpreg, Not(pinmask));
        tmpreg := Or(tmpreg, Shl(currentmode, pinpos * 4));
        Pull(mode, pinpos + base);
      }
    }

    /** One of the two loops over eight pins; `base` is the first pin's number. */
    method Loop(pins: Word, mode: nat, currentmode: Word, ghost nib: nat, base: nat, before: Word)
      returns (tmpreg: Word)
      requires base <= 8 && nib < 16 && currentmode == Of(nib)
      modifies this`ODR
      ensures forall j :: 0 <= j < 8 ==> Entry(tmpreg, j, 4) == if pins[base + j] then nib else Entry(before, j, 4)
      ensures forall j :: 0 <= j < 32 ==>
        ODR[j] == if base <= j < base + 8 && pins[j] then OutputAfter(mode, old(ODR)[j]) else old(ODR)[j]
    {
      tmpreg := before;
      var pinpos := 0;
      while pinpos < 8
        invariant 0 <= pinpos <= 8
        invariant forall j :: 0 <= j < 8 ==>
          Entry(tmpreg, j, 4) == if j < pinpos && pins[base + j] then nib else Entry(before, j, 4)
        invariant forall j :: 0 <= j < 32 ==>
          ODR[j] == if base <= j < base + pinpos && pins[j] then OutputAfter(mode, old(ODR)[j]) else old(ODR)[j]
      {
        tmpreg := Pin(pins, mode, currentmode, nib, base, pinpos, tmpreg);
        pinpos := pinpos + 1;
      }
    }

    /** GPIO_Init: every selected pin gets the configuration, its pull is selected, and nothing
        else changes. */
    method Init(pins: Word, mode: nat, speed: nat)
      requires IsPins(pins) && InRange(mode, speed)
      modifies this
      ensures forall k :: 0 <= k < 16 ==> ConfigOf(k) == if pins[k] then NibbleOf(mode, speed) else old(ConfigOf(k))
      ensures forall k :: 0 <= k < 32 ==> ODR[k] == if pins[k] then OutputAfter(mode, old(ODR)[k]) else old(ODR)[k]
      ensures forall k :: 0 <= k < 16 && pins[k] ==>
        ConfigOf(k) / 4 == mode / 4 % 4 && ConfigOf(k) % 4 == if IsOutput(mode) then speed else 0
      ensures mode == 0x28 ==> forall k :: 0 <= k < 16 && pins[k] ==> !ODR[k]
      ensures mode == 0x48 ==> forall k :: 0 <= k < 16 && pins[k] ==> ODR[k]
      ensures forall k :: 0 <= k < 32 && (!pins[k] || (mode != 0x28 && mode != 0x48)) ==> ODR[k] == old(ODR)[k]
    {
      NibbleParts(mode, speed);
      ModeCodes(mode);
      var currentmode := CurrentMode(mode, speed);
      ghost var nib := NibbleOf(mode, speed);
      CRL := Half(pins, mode, currentmode, nib, 0, CRL);
      CRH := Half(pins, mode, currentmode, nib, 8, CRH);
    }

    /** One half of the port is left alone when none of its pins is selected. */
    method Half(pins: Word, mode: nat, currentmode: Word, ghost nib: nat, base: nat, before: Word)
      returns (tmpreg: Word)
      requires base <= 8 && nib < 16 && currentmode == Of(nib)
      modifies this`ODR
      ensures forall j :: 0 <= j < 8 ==> Entry(tmpreg, j, 4) == if pins[base + j] then nib else Entry(before, j, 4)
      ensures forall j :: 0 <= j < 32 ==>
        ODR[j] == if base <= j < base + 8 && pins[j] then OutputAfter(mode, old(ODR)[j]) else old(ODR)[j]
    {
      if And(pins, Mask(base, 8)) != Zeros(32) {
        tmpreg := Loop(pins, mode, currentmode, nib, base, before);
      } else {
        tmpreg := before;
        NoneSelected(pins, base);
      }
    }

    method CurrentMode(mode: nat, speed: nat) returns (currentmode: Word)
      requires mode % 16 == 4 * (mode % 16 / 4) && ((mode / 16) % 2 == 1 ==> speed < 4)
      ensures currentmode == Of(NibbleOf(mode, speed))
    {
      var low := mode % 16;
      LowNibble(mode);
      OutputTest(mode);
      currentmode := And(Of(mode), NIBBLE);
      if And(Of(mode), OUTPUT_FLAG) != Zeros(32) {
        SpeedJoins(low, speed);
        currentmode := Or(currentmode, Of(speed));
      }
    }

    /** GPIO_SetBits and GPIO_ResetBits. */
    method SetBits(pins: Word)
      requires IsPins(pins)
      modifies this`ODR
      ensures forall k :: 0 <= k < 32 ==> ODR[k] == (pins[k] || old(ODR)[k])
    {
      ODR := SetReset(ODR, pins);
    }

    method ResetBits(pins: Word)
      requires IsPins(pins)
      modifies this`ODR
      ensures forall k :: 0 <= k < 32 ==> ODR[k] == (!pins[k] && old(ODR)[k])
    {
      ODR := Reset(ODR, pins);
    }

    /** Any run of calls: each pin is configured by the last GPIO_Init that selected it, and its
        output bit is what the calls that touched it left, in order. */
    method Run(cs: seq<Command>)
      requires forall c :: c in cs ==> Legal(c)
      modifies this
      ensures forall k :: 0 <= k < 16 ==> ConfigOf(k) == LastConfig(cs, k, old(ConfigOf(k)))
      ensures forall k :: 0 <= k < 16 ==> ODR[k] == LastOutput(cs, k, old(ODR)[k])
    {
      for i := 0 to |cs|
        invariant forall k :: 0 <= k < 16 ==> ConfigOf(k) == LastConfig(cs[..i], k, old(ConfigOf(k)))
        invariant forall k :: 0 <= k < 16 ==> ODR[k] == LastOutput(cs[..i], k, old(ODR)[k])
      {
        assert cs[..i + 1][..i] == cs[..i];
        Call(cs[i]);
      }
      assert cs[..|cs|] == cs;
    }

    method Call(c: Command)
      requires Legal(c)
      modifies this
      ensures forall k :: 0 <= k < 16 ==> ConfigOf(k) == ConfigBy(c, k, old(ConfigOf(k)))
      ensures forall k :: 0 <= k < 16 ==> ODR[k] == OutputBy(c, k, old(ODR)[k])
    {
      match c {
        case Configure(pins, mode, speed) => Init(pins, mode, speed);
        case High(pins) => SetBits(pins);
        case Low(pins) => ResetBits(pins);
      }
    }
  }

  lemma NoneSelected(pins: Word, base: nat)
    requires base <= 24 && And(pins, Mask(base, 8)) == Zeros(32)
    ensures forall j :: base <= j < base + 8 ==> !pins[j]
  {
    assert forall j :: base <= j < base + 8 ==> And(pins, Mask(base, 8))[j] == pins[j];
  }

  // ---- runs ------------------------------------------------------------------------------

  datatype Command = Configure(pins: Word, mode: nat, speed: nat) | High(pins: Word) | Low(pins: Word)

  predicate Legal(c: Command) {
    IsPins(c.pins) && (c.Configure? ==> InRange(c.mode, c.speed))
  }

  function ConfigBy(c: Command, k: nat, before: nat): nat
    requires k < 16
  {
    if c.Configure? && c.pins[k] then NibbleOf(c.mode, c.speed) else before
  }

  function OutputBy(c: Command, k: nat, before: bool): bool
    requires k < 16
  {
    if !c.pins[k] then before
    else match c
      case Configure(_, mode, _) => OutputAfter(mode, before)
      case High(_) => true
      case Low(_) => false
  }

  ghost function LastConfig(cs: seq<Command>, k: nat, before: nat): nat
    requires k < 16
  {
    if cs == [] then before
    else
      var c := cs[|cs| - 1];
      if c.Configure? && c.pins[k] then NibbleOf(c.mode, c.speed) else LastConfig(cs[..|cs| - 1], k, before)
  }

  ghost function LastOutput(cs: seq<Command>, k: nat, before: bool): bool
    requires k < 16
  {
    if cs == [] then before else OutputBy(cs[|cs| - 1], k, LastOutput(cs[..|cs| - 1], k, before))
  }

  /** A pin's final state depends only on the calls that name it. */
  lemma {:induction false} OtherPinsDoNotMatter(cs: seq<Command>, ds: seq<Command>, k: nat, config: nat, output: bool)
    requires k < 16 && forall d :: d in ds ==> !d.pins[k]
    ensures LastConfig(cs + ds, k, config) == LastConfig(cs, k, config)
    ensures LastOutput(cs + ds, k, output) == LastOutput(cs, k, output)
    decreases |ds|
  {
    if ds == [] {
      assert cs + ds == cs;
    } else {
      var most := ds[..|ds| - 1];
      assert (cs + ds)[..|cs + ds| - 1] == cs + most;
      assert ds[|ds| - 1] in ds;
      OtherPinsDoNotMatter(cs, most, k, config, output);
    }
  }

  // ---- the call that decides -------------------------------------------------------------

  /** GPIO_SetBits and a pull-up set a pin's output bit, GPIO_ResetBits and a pull-down clear it. */
  predicate Raises(c: Command, k: nat)
    requires k < 16
  {
    c.pins[k] && (c.High? || (c.Configure? && c.mode == 0x48))
  }

  predicate Lowers(c: Command, k: nat)
    requires k < 16
  {
    c.pins[k] && (c.Low? || (c.Configure? && c.mode == 0x28))
  }

  ghost predicate NoneLowers(cs: seq<Command>, from: nat, k: nat)
    requires k < 16
  {
    forall l :: from <= l < |cs| ==> !Lowers(cs[l], k)
  }

  ghost predicate LeftHigh(cs: seq<Command>, k: nat, before: bool)
    requires k < 16
  {
    (before && NoneLowers(cs, 0, k)) || exists j :: 0 <= j < |cs| && Raises(cs[j], k) && NoneLowers(cs, j + 1, k)
  }

  /** An output bit is set exactly when some call set it, or it was set, and no later call cleared it. */
  lemma {:induction false} OutputByLast(cs: seq<Command>, k: nat, before: bool)
    requires k < 16
    ensures LastOutput(cs, k, before) <==> LeftHigh(cs, k, before)
    decreases |cs|
  {
    if cs != [] {
      var most, c := cs[..|cs| - 1], cs[|cs| - 1];
      OutputByLast(most, k, before);
      LeftHighStep(most, c, k, before);
      assert cs == most + [c];
    }
  }

  lemma LeftHighStep(cs: seq<Command>, c: Command, k: nat, before: bool)
    requires k < 16
    ensures LeftHigh(cs + [c], k, before) <==> Raises(c, k) || (LeftHigh(cs, k, before) && !Lowers(c, k))
  {
    var all := cs + [c];
    forall j: nat | j <= |cs| ensures NoneLowers(all, j, k) <==> NoneLowers(cs, j, k) && !Lowers(c, k) {
      if NoneLowers(all, j, k) {
        assert all[|cs|] == c;
        forall l | j <= l < |cs| ensures !Lowers(cs[l], k) {
          assert all[l] == cs[l];
        }
      }
    }
    if Raises(c, k) {
      assert all[|cs|] == c && NoneLowers(all, |cs| + 1, k);
    }
    if j :| 0 <= j < |cs| && Raises(cs[j], k) && NoneLowers(cs, j + 1, k) {
      assert all[j] == cs[j];
    }
    if j :| 0 <= j < |all| && Raises(all[j], k) && NoneLowers(all, j + 1, k) {
      if j < |cs| {
        assert all[j] == cs[j];
      }
    }
  }

  /** A pin that some call configured has the mode and the speed of the last such call. */
  lemma {:induction false} ConfigByLast(cs: seq<Command>, k: nat, j: nat, before: nat)
    requires k < 16 && j < |cs| && Legal(cs[j]) && cs[j].Configure? && cs[j].pins[k]
    requires forall l :: j < l < |cs| ==> !(cs[l].Configure? && cs[l].pins[k])
    ensures LastConfig(cs, k, before) / 4 == cs[j].mode / 4 % 4
    ensures LastConfig(cs, k, before) % 4 == if IsOutput(cs[j].mode) then cs[j].speed else 0
    decreases |cs|
  {
    if j == |cs| - 1 {
      NibbleParts(cs[j].mode, cs[j].speed);
    } else {
      ConfigByLast(cs[..|cs| - 1], k, j, before);
    }
  }
}
