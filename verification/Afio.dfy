/** Alternate function remapping and external interrupt line selection: GPIO_PinRemapConfig and
    GPIO_EXTILineConfig (stm32f10x_gpio.c). */
module Afio {
  import opened Words

  const NIBBLE: Word := Mask(0, 4)
  const SWJ: Word := Mask(24, 4)

  // ---- remap codes -----------------------------------------------------------------------

  // A code carries the value in its low half, a two-bit field's position in bits 16..19, a flag
  // for two-bit fields in bit 20 and a flag for the upper half of MAPR in bit 21. Both flags
  // together mark the debug port codes, bit 31 marks MAPR2.

  predicate TwoBits(remap: Word) { remap[20] }
  predicate UpperHalf(remap: Word) { remap[21] }
  predicate IsSwj(remap: Word) { remap[20] && remap[21] }

  function Position(remap: Word): nat {
    Value(Field(remap, 16, 4))
  }

  /** The value of a code, in its place in MAPR. */
  function Commanded(remap: Word): Word {
    Shl(And(remap, Mask(0, 16)), if UpperHalf(remap) then 16 else 0)
  }

  /** The bits of MAPR a code is about. */
  function Target(remap: Word): Word {
    if IsSwj(remap) then SWJ
    else if TwoBits(remap) then Mask(Position(remap), 2)
    else Commanded(remap)
  }

  /** The well-formed codes for MAPR: a value lies inside its field. */
  ghost predicate IsRemap(remap: Word) {
    && (forall k :: 22 <= k < 32 ==> !remap[k])
    && forall k :: 0 <= k < 32 && Commanded(remap)[k] ==> Target(remap)[k]
  }

  /** What a call does to one bit of MAPR: a bit of the field takes the commanded value, or zero
      when disabling; the debug port bits are written as ones unless they are the field; every
      other bit is kept. */
  function BitAfter(remap: Word, enable: bool, k: nat, before: bool): bool
    requires k < 32
  {
    if 24 <= k < 28 && !IsSwj(remap) then true
    else if Target(remap)[k] then enable && Commanded(remap)[k]
    else before
  }

  predicate Named(k: int, remap: Word, low: int) {
    low <= k < low + 16 && remap[k - low]
  }

  /** The same for the whole register, by the two flags: a one-bit field in the lower or the upper half, a
      two-bit field in the lower half, or the debug port field. */
  ghost predicate Remapped(remap: Word, enable: bool, before: Word, after: Word) {
    if remap[20] && remap[21] then
      && (forall k :: 24 <= k < 28 ==> after[k] == (enable && remap[k - 16]))
      && (forall k :: 0 <= k < 32 && !(24 <= k < 28) ==> after[k] == before[k])
    else
      && (forall k :: 24 <= k < 28 ==> after[k])
      && if remap[20] then
           var p := Value(Field(remap, 16, 4));
           && (forall k :: p <= k < p + 2 && k < 16 ==> after[k] == (enable && remap[k]))
           && (forall k :: 0 <= k < 32 && !(24 <= k < 28) && !(p <= k < p + 2) ==> after[k] == before[k])
         else
           var low := if remap[21] then 16 else 0;
           forall k :: 0 <= k < 32 && !(24 <= k < 28) ==> after[k] == if Named(k, remap, low) then enable else before[k]
  }

  lemma BitsRemapped(remap: Word, enable: bool, before: Word, after: Word)
    requires IsRemap(remap) && forall k :: 0 <= k < 32 ==> after[k] == BitAfter(remap, enable, k, before[k])
    ensures Remapped(remap, enable, before, after)
  {
  }

  class Registers {
    var MAPR: Word
    var EXTICR: seq<Word>

    method PinRemapConfig(remap: Word, enable: bool)
      requires IsRemap(remap)
      modifies this`MAPR
      ensures forall k :: 0 <= k < 32 ==> MAPR[k] == BitAfter(remap, enable, k, old(MAPR)[k])
      ensures Remapped(remap, enable, old(MAPR), MAPR)
    {
      var tmpreg := MAPR;
      var tmpmask := Value(Shr(And(remap, Mask(16, 4)), 16));
      ShiftAndMask(remap, 16, 4);
      var tmp := And(remap, Mask(0, 16));
      var shift := Value(Shr(remap, 21)) * 16;
      HalfSelected(remap);
      if IsSwj(remap) {
        tmpreg := And(tmpreg, Not(SWJ));
        MAPR := And(MAPR, Not(SWJ));
      } else if TwoBits(remap) {
        tmpreg := And(tmpreg, Not(Shl(Mask(0, 2), tmpmask)));
        tmpreg := Or(tmpreg, SWJ);
      } else {
        tmpreg := And(tmpreg, Not(Shl(tmp, shift)));
        tmpreg := Or(tmpreg, SWJ);
      }
      if enable {
        tmpreg := Or(tmpreg, Shl(tmp, shift));
      }
      MAPR := tmpreg;
      BitsRemapped(remap, enable, old(MAPR), MAPR);
    }

    /** The port selected for a line. */
    ghost function PortOf(line: nat): nat
      requires line < 16 && |EXTICR| == 4
      reads this
    {
      Entry(EXTICR[line / 4], line % 4, 4)
    }

    /** GPIO_EXTILineConfig: a 16-entry table over four words. */
    method EXTILineConfig(port: nat, line: nat)
      requires port <= 6 && line < 16 && |EXTICR| == 4
      modifies this`EXTICR
      ensures |EXTICR| == 4
      ensures forall k :: 0 <= k < 16 ==> PortOf(k) == if k == line then port else old(PortOf(k))
      ensures forall i, j :: 0 <= i < 4 && 16 <= j < 32 ==> EXTICR[i][j] == old(EXTICR)[i][j]
    {
      var tmp := Shl(NIBBLE, line % 4 * 4);
      var w := EXTICR[line / 4];
      EXTICR := EXTICR[line / 4 := And(EXTICR[line / 4], Not(tmp))];
      EXTICR := EXTICR[line / 4 := Or(EXTICR[line / 4], Shl(Of(port), line % 4 * 4))];
      LineWritten(w, line % 4, port);
    }

    /** Any run of line selections leaves the last port chosen for each line. */
    method SelectLines(cs: seq<(nat, nat)>)
      requires |EXTICR| == 4 && forall c :: c in cs ==> c.0 <= 6 && c.1 < 16
      modifies this`EXTICR
      ensures |EXTICR| == 4 && forall k :: 0 <= k < 16 ==> PortOf(k) == LastPort(cs, k, old(PortOf(k)))
    {
      for i := 0 to |cs|
        invariant |EXTICR| == 4
        invariant forall k :: 0 <= k < 16 ==> PortOf(k) == LastPort(cs[..i], k, old(PortOf(k)))
      {
        assert cs[..i + 1][..i] == cs[..i];
        EXTILineConfig(cs[i].0, cs[i].1);
      }
      assert cs[..|cs|] == cs;
    }

    /** Any run of remaps: a field holds what the last remap of it commanded. */
    method Remap(cs: seq<(Word, bool)>)
      requires forall c :: c in cs ==> IsRemap(c.0)
      modifies this`MAPR
      ensures forall k :: 0 <= k < 32 ==> MAPR[k] == LastBit(cs, k, old(MAPR)[k])
    {
      for i := 0 to |cs|
        invariant forall k :: 0 <= k < 32 ==> MAPR[k] == LastBit(cs[..i], k, old(MAPR)[k])
      {
        assert cs[..i + 1][..i] == cs[..i];
        PinRemapConfig(cs[i].0, cs[i].1);
      }
      assert cs[..|cs|] == cs;
    }
  }

  lemma HalfSelected(remap: Word)
    requires forall k :: 22 <= k < 32 ==> !remap[k]
    ensures Value(Shr(remap, 21)) == if UpperHalf(remap) then 1 else 0
  {
    var rest := Zeros(31);
    assert Shr(remap, 21) == [remap[21]] + rest;
    assert Shr(remap, 21)[1..] == rest;
    ValueZeros(31);
  }

  lemma LineWritten(w: Word, slot: nat, port: nat)
    requires slot < 4 && port <= 6
    ensures var w' := Or(And(w, Not(Shl(NIBBLE, slot * 4))), Shl(Of(port), slot * 4));
            && (forall j :: 0 <= j < 4 ==> Entry(w', j, 4) == if j == slot then port else Entry(w, j, 4))
            && forall j :: 16 <= j < 32 ==> w'[j] == w[j]
  {
    assert Pow2(4) == 16;
    EntryWriteWord(w, slot, 4, port);
    forall j | 0 <= j < 4
      ensures Entry(Splice(w, slot * 4, Bits(port, 4)), j, 4) == if j == slot then port else Entry(w, j, 4)
    {
      EntryWritten(w, slot, 4, port, j);
    }
  }

  ghost function LastPort(cs: seq<(nat, nat)>, line: nat, before: nat): nat {
    if cs == [] then before
    else if cs[|cs| - 1].1 == line then cs[|cs| - 1].0
    else LastPort(cs[..|cs| - 1], line, before)
  }

  ghost function LastBit(cs: seq<(Word, bool)>, k: nat, before: bool): bool
    requires k < 32
  {
    if cs == [] then before
    else BitAfter(cs[|cs| - 1].0, cs[|cs| - 1].1, k, LastBit(cs[..|cs| - 1], k, before))
  }

  /** After a remap of a field, remaps of other fields do not disturb it, however many there are. */
  lemma {:induction false} FieldHolds(remap: Word, enable: bool, cs: seq<(Word, bool)>, k: nat, before: bool)
    requires k < 24 || 28 <= k < 32
    requires Target(remap)[k] && forall c :: c in cs ==> !Target(c.0)[k]
    ensures LastBit([(remap, enable)] + cs, k, before) == (enable && Commanded(remap)[k])
    decreases |cs|
  {
    var run := [(remap, enable)] + cs;
    if cs == [] {
      assert run[..0] == [];
    } else {
      assert run[..|run| - 1] == [(remap, enable)] + cs[..|cs| - 1];
      assert cs[|cs| - 1] in cs && run[|run| - 1] == cs[|cs| - 1];
      FieldHolds(remap, enable, cs[..|cs| - 1], k, before);
    }
  }
}
