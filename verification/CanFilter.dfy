/** The 28 acceptance filter banks, spread over four bitmaps and two words a bank
    (CAN_FilterInit in stm32f10x_can.c). */
module CanFilter {
  import opened Words
  import opened CanFrame

  /** One bank as the controller sees it. */
  datatype Bank = Bank(scale32: bool, list: bool, fifo1: bool, active: bool, fr1: Word, fr2: Word)
  {
    ghost predicate Accepts(f: Frame) {
      active && if scale32 then PassesLong(LongView(f)) else PassesShort(ShortView(f))
    }

    /** The controller's tests: in list mode every word, or half-word, is an identifier; in mask mode the second
        word is the mask of the first, or the upper half of each word the mask of its lower half. */
    ghost predicate PassesLong(v: Word) {
      if list then v == fr1 || v == fr2 else Under(v, fr1, fr2)
    }

    ghost predicate PassesShort(v: seq<bool>)
      requires |v| == 16
    {
      if list then v == fr1[..16] || v == fr1[16..] || v == fr2[..16] || v == fr2[16..]
      else Under(v, fr1[..16], fr1[16..]) || Under(v, fr2[..16], fr2[16..])
    }
  }

  // ---- what a filter looks at ------------------------------------------------------------

  /** The identifier as a 32-bit filter sees it: a zero, RTR, IDE, and 29 bits of identifier, of which a standard
      one fills the upper eleven. */
  function LongView(f: Frame): Word {
    [false, f.remote, f.extended] + IdField(f)
  }

  /** As a 16-bit filter sees it: three bits of an extended identifier, IDE, RTR, and the upper eleven bits. */
  function ShortView(f: Frame): (v: seq<bool>)
    ensures |v| == 16
  {
    IdField(f)[15..18] + [f.extended, f.remote] + IdField(f)[18..]
  }

  function IdField(f: Frame): (b: seq<bool>)
    ensures |b| == 29
  {
    if f.extended then Bits(f.id, 29) else Zeros(18) + Bits(f.id, 11)
  }

  /** Equal where the mask has ones. */
  ghost predicate Under(v: seq<bool>, id: seq<bool>, mask: seq<bool>)
    requires |v| == |id| == |mask|
  {
    forall i :: 0 <= i < |v| && mask[i] ==> v[i] == id[i]
  }

  datatype Init = Init(
    number: nat, scale: nat, mode: nat, fifo: nat, activation: bool,
    idHigh: nat, idLow: nat, maskIdHigh: nat, maskIdLow: nat)

  /** The asserted parameter values, and the C types. */
  predicate InRange(c: Init) {
    && c.number < 28 && c.scale < 2 && c.mode < 2 && c.fifo < 2
    && c.idHigh < 0x1_0000 && c.idLow < 0x1_0000 && c.maskIdHigh < 0x1_0000 && c.maskIdLow < 0x1_0000
  }

  /** Two half-words in one word. */
  function Pair(high: nat, low: nat): Word {
    Bits(low, 16) + Bits(high, 16)
  }

  lemma PairValue(high: nat, low: nat)
    requires high < 0x1_0000 && low < 0x1_0000
    ensures Value(Pair(high, low)) == high * 0x1_0000 + low
  {
    SmallPowers();
    ValueConcat(Bits(low, 16), Bits(high, 16));
    FieldValue(low, 16);
    FieldValue(high, 16);
  }

  /** Where the four half-words go: in 16-bit scale low parts share a word, in 32-bit scale the
      identifier and the mask have a word each. */
  function BankOf(c: Init): Bank {
    Bank(c.scale == 1, c.mode == 1, c.fifo == 1, c.activation,
         if c.scale == 0 then Pair(c.maskIdLow, c.idLow) else Pair(c.idHigh, c.idLow),
         if c.scale == 0 then Pair(c.maskIdHigh, c.idHigh) else Pair(c.maskIdHigh, c.maskIdLow))
  }

  lemma BankNumbers(c: Init)
    requires InRange(c)
    ensures Value(BankOf(c).fr1) == (if c.scale == 0 then c.maskIdLow else c.idHigh) * 0x1_0000 + c.idLow
    ensures Value(BankOf(c).fr2) == c.maskIdHigh * 0x1_0000 + (if c.scale == 0 then c.idHigh else c.maskIdLow)
  {
    PairValue(if c.scale == 0 then c.maskIdLow else c.idHigh, c.idLow);
    PairValue(c.maskIdHigh, if c.scale == 0 then c.idHigh else c.maskIdLow);
  }

  // ---- which frames pass -----------------------------------------------------------------

  /** Which frames a configuration asks for, by its half-words: four short identifiers, two short identifiers
      with masks, two long identifiers, or a long identifier with its mask. */
  ghost predicate AsksFor(c: Init, f: Frame) {
    c.activation && if c.scale == 0 then AsksShort(c, ShortView(f)) else AsksLong(c, LongView(f))
  }

  ghost predicate AsksShort(c: Init, v: seq<bool>)
    requires |v| == 16
  {
    if c.mode == 1 then Value(v) in {c.idLow, c.maskIdLow, c.idHigh, c.maskIdHigh}
    else HalfUnder(v, c.idLow, c.maskIdLow) || HalfUnder(v, c.idHigh, c.maskIdHigh)
  }

  ghost predicate AsksLong(c: Init, v: Word) {
    if c.mode == 1 then
      Value(v) == c.idHigh * 0x1_0000 + c.idLow || Value(v) == c.maskIdHigh * 0x1_0000 + c.maskIdLow
    else HalfUnder(v[..16], c.idLow, c.maskIdLow) && HalfUnder(v[16..], c.idHigh, c.maskIdHigh)
  }

  ghost predicate HalfUnder(v: seq<bool>, id: nat, mask: nat)
    requires |v| == 16
  {
    forall i :: 0 <= i < 16 && Bits(mask, 16)[i] ==> v[i] == Bits(id, 16)[i]
  }

  /** Bits are equal exactly when the numbers are. */
  lemma SameNumber(a: seq<bool>, b: seq<bool>)
    requires |a| == |b|
    ensures a == b <==> Value(a) == Value(b)
  {
    BitsOfValue(a);
    BitsOfValue(b);
  }

  lemma HalvesOf(high: nat, low: nat)
    ensures Pair(high, low)[..16] == Bits(low, 16) && Pair(high, low)[16..] == Bits(high, 16)
  {
  }

  lemma HalfIs(v: seq<bool>, n: nat)
    requires |v| == 16 && n < 0x1_0000
    ensures v == Bits(n, 16) <==> Value(v) == n
  {
    SmallPowers();
    FieldValue(n, 16);
    SameNumber(v, Bits(n, 16));
  }

  lemma UnderPair(v: Word, idHigh: nat, idLow: nat, maskHigh: nat, maskLow: nat)
    ensures Under(v, Pair(idHigh, idLow), Pair(maskHigh, maskLow)) <==>
            HalfUnder(v[..16], idLow, maskLow) && HalfUnder(v[16..], idHigh, maskHigh)
  {
    var id, mask := Pair(idHigh, idLow), Pair(maskHigh, maskLow);
    if Under(v, id, mask) {
      forall i | 0 <= i < 16 && Bits(maskLow, 16)[i] ensures v[..16][i] == Bits(idLow, 16)[i] {
        assert mask[i] && v[i] == id[i];
      }
      forall i | 0 <= i < 16 && Bits(maskHigh, 16)[i] ensures v[16..][i] == Bits(idHigh, 16)[i] {
        assert mask[16 + i] && v[16 + i] == id[16 + i];
      }
    }
    if HalfUnder(v[..16], idLow, maskLow) && HalfUnder(v[16..], idHigh, maskHigh) {
      forall i | 0 <= i < 32 && mask[i] ensures v[i] == id[i] {
        assert i < 16 ==> v[..16][i] == Bits(idLow, 16)[i];
        assert i >= 16 ==> v[16..][i - 16] == Bits(idHigh, 16)[i - 16];
      }
    }
  }

  lemma ShortAsked(c: Init, v: seq<bool>)
    requires InRange(c) && c.scale == 0 && |v| == 16
    ensures BankOf(c).PassesShort(v) <==> AsksShort(c, v)
  {
    HalvesOf(c.maskIdLow, c.idLow);
    HalvesOf(c.maskIdHigh, c.idHigh);
    if c.mode == 1 {
      HalfIs(v, c.idLow);
      HalfIs(v, c.idHigh);
      HalfIs(v, c.maskIdLow);
      HalfIs(v, c.maskIdHigh);
    }
  }

  lemma LongAsked(c: Init, v: Word)
    requires InRange(c) && c.scale == 1
    ensures BankOf(c).PassesLong(v) <==> AsksLong(c, v)
  {
    if c.mode == 1 {
      BankNumbers(c);
      SameNumber(v, BankOf(c).fr1);
      SameNumber(v, BankOf(c).fr2);
    } else {
      UnderPair(v, c.idHigh, c.idLow, c.maskIdHigh, c.maskIdLow);
    }
  }

  /** A bank that holds a configuration accepts exactly the frames it asks for. */
  lemma AcceptsWhatIsAsked(c: Init, f: Frame)
    requires InRange(c)
    ensures BankOf(c).Accepts(f) <==> AsksFor(c, f)
  {
    if c.scale == 0 {
      ShortAsked(c, ShortView(f));
    } else {
      LongAsked(c, LongView(f));
    }
  }

  const ONE: Word := Mask(0, 1)
  const LOW16: Word := Mask(0, 16)
  const FINIT: Word := Mask(0, 1)

  lemma HalfWord(v: nat)
    requires v < 0x1_0000
    ensures Of(v) == Bits(v, 16) + Zeros(16) && And(LOW16, Of(v)) == Of(v)
  {
    assert v < Pow2(16) by {
      SmallPowers();
    }
    BitsWiden(v, 16, 32);
    LowHalfKept(Bits(v, 16));
  }

  lemma LowHalfKept(low: seq<bool>)
    requires |low| == 16
    ensures And(LOW16, low + Zeros(16)) == low + Zeros(16)
  {
  }

  lemma HalvesJoin(high: seq<bool>, low: seq<bool>)
    requires |high| == 16 && |low| == 16
    ensures Or(Shl(high + Zeros(16), 16), low + Zeros(16)) == low + high
  {
    ShiftWidened(high, 16);
  }

  lemma PairWord(high: nat, low: nat)
    requires high < 0x1_0000 && low < 0x1_0000
    ensures Or(Shl(And(LOW16, Of(high)), 16), And(LOW16, Of(low))) == Pair(high, low)
  {
    HalfWord(high);
    HalfWord(low);
    HalvesJoin(Bits(high, 16), Bits(low, 16));
  }

  function With(w: Word, n: nat, b: bool): Word
    requires n < 32
  {
    w[n := b]
  }

  lemma BitCleared(w: Word, n: nat)
    requires n < 32
    ensures And(w, Not(Shl(ONE, n))) == With(w, n, false)
  {
  }

  lemma BitSet(w: Word, n: nat)
    requires n < 32
    ensures Or(w, Shl(ONE, n)) == With(w, n, true)
  {
  }

  class Filters {
    var FMR: Word
    var FA1R: Word
    var FS1R: Word
    var FM1R: Word
    var FFA1R: Word
    var FR1: seq<Word>
    var FR2: seq<Word>

    ghost predicate Valid()
      reads this
    {
      |FR1| == 28 && |FR2| == 28
    }

    ghost function BankAt(i: nat): Bank
      requires Valid() && i < 28
      reads this
    {
      Bank(FS1R[i], FM1R[i], FFA1R[i], FA1R[i], FR1[i], FR2[i])
    }

    /** The controller's rule for a bank: its scale, mode, FIFO and words may change only in
        initialisation mode and while the bank is inactive. Every write below obeys it. */
    ghost predicate Writable(before: Word, after: Word)
      reads this
    {
      FMR[0] && forall i :: 0 <= i < 28 && before[i] != after[i] ==> !FA1R[i]
    }

    method StoreScale(v: Word)
      requires Writable(FS1R, v)
      modifies this`FS1R
      ensures FS1R == v
    {
      FS1R := v;
    }

    method StoreMode(v: Word)
      requires Writable(FM1R, v)
      modifies this`FM1R
      ensures FM1R == v
    {
      FM1R := v;
    }

    method StoreFifo(v: Word)
      requires Writable(FFA1R, v)
      modifies this`FFA1R
      ensures FFA1R == v
    {
      FFA1R := v;
    }

    method StoreWords(n: nat, fr1: Word, fr2: Word)
      requires Valid() && n < 28 && FMR[0] && !FA1R[n]
      modifies this`FR1, this`FR2
      ensures FR1 == old(FR1)[n := fr1] && FR2 == old(FR2)[n := fr2]
    {
      FR1 := FR1[n := fr1];
      FR2 := FR2[n := fr2];
    }

    /** CAN_FilterInit: exactly bank `number` becomes the bank described, and initialisation mode
        is left again. */
    method FilterInit(c: Init)
      requires Valid() && InRange(c)
      modifies this
      ensures Valid() && FMR == With(old(FMR), 0, false)
      ensures BankAt(c.number) == BankOf(c)
      ensures Value(FR1[c.number]) == (if c.scale == 0 then c.maskIdLow else c.idHigh) * 0x1_0000 + c.idLow
      ensures Value(FR2[c.number]) == c.maskIdHigh * 0x1_0000 + (if c.scale == 0 then c.idHigh else c.maskIdLow)
      ensures FS1R[c.number] == (c.scale == 1) && FM1R[c.number] == (c.mode == 1)
      ensures FFA1R[c.number] == (c.fifo == 1) && FA1R[c.number] == c.activation
      ensures forall i :: 0 <= i < 28 && i != c.number ==> BankAt(i) == old(BankAt(i))
      ensures FA1R[28..] == old(FA1R)[28..] && FS1R[28..] == old(FS1R)[28..]
      ensures FM1R[28..] == old(FM1R)[28..] && FFA1R[28..] == old(FFA1R)[28..]
    {
      var n := c.number;
      var bit := Shl(ONE, n);
      FMR := Or(FMR, FINIT);
      assert FMR == With(old(FMR), 0, true);
      BitCleared(FA1R, n);
      FA1R := And(FA1R, Not(bit));
      ScaleAndWords(c, bit);
      SelectBits(c, bit);
      if c.activation {
        BitSet(FA1R, n);
        FA1R := Or(FA1R, bit);
      }
      BankNumbers(c);
      FMR := And(FMR, Not(FINIT));
      assert FMR == With(old(FMR), 0, false);
    }

    /** The scale bit and the two words. */
    method ScaleAndWords(c: Init, bit: Word)
      requires Valid() && InRange(c) && bit == Shl(ONE, c.number) && FMR[0] && !FA1R[c.number]
      modifies this`FS1R, this`FR1, this`FR2
      ensures FS1R == With(old(FS1R), c.number, c.scale == 1)
      ensures FR1 == old(FR1)[c.number := BankOf(c).fr1] && FR2 == old(FR2)[c.number := BankOf(c).fr2]
    {
      var n := c.number;
      if c.scale == 0 {
        BitCleared(FS1R, n);
        StoreScale(And(FS1R, Not(bit)));
        PairWord(c.maskIdLow, c.idLow);
        PairWord(c.maskIdHigh, c.idHigh);
        StoreWords(n,
                   Or(Shl(And(LOW16, Of(c.maskIdLow)), 16), And(LOW16, Of(c.idLow))),
                   Or(Shl(And(LOW16, Of(c.maskIdHigh)), 16), And(LOW16, Of(c.idHigh))));
      }
      if c.scale == 1 {
        BitSet(FS1R, n);
        StoreScale(Or(FS1R, bit));
        PairWord(c.idHigh, c.idLow);
        PairWord(c.maskIdHigh, c.maskIdLow);
        StoreWords(n,
                   Or(Shl(And(LOW16, Of(c.idHigh)), 16), And(LOW16, Of(c.idLow))),
                   Or(Shl(And(LOW16, Of(c.maskIdHigh)), 16), And(LOW16, Of(c.maskIdLow))));
      }
    }

    /** The mode and FIFO bits. */
    method SelectBits(c: Init, bit: Word)
      requires Valid() && InRange(c) && bit == Shl(ONE, c.number) && FMR[0] && !FA1R[c.number]
      modifies this`FM1R, this`FFA1R
      ensures FM1R == With(old(FM1R), c.number, c.mode == 1)
      ensures FFA1R == With(old(FFA1R), c.number, c.fifo == 1)
    {
      if c.mode == 0 {
        BitCleared(FM1R, c.number);
        StoreMode(And(FM1R, Not(bit)));
      } else {
        BitSet(FM1R, c.number);
        StoreMode(Or(FM1R, bit));
      }
      if c.fifo == 0 {
        BitCleared(FFA1R, c.number);
        StoreFifo(And(FFA1R, Not(bit)));
      }
      if c.fifo == 1 {
        BitSet(FFA1R, c.number);
        StoreFifo(Or(FFA1R, bit));
      }
    }

    /** Any run of configurations: every bank is as its last configuration describes it, and accepts exactly the
        frames that one asks for. */
    method Run(cs: seq<Init>)
      requires Valid() && forall c :: c in cs ==> InRange(c)
      modifies this
      ensures Valid()
      ensures forall i :: 0 <= i < 28 ==> BankAt(i) == LastBank(cs, i, old(BankAt(i)))
      ensures forall i, f :: 0 <= i < 28 ==> BankAt(i).Accepts(f) == AskedLast(cs, i, f, old(BankAt(i)))
      ensures cs != [] ==> !FMR[0]
    {
      for k := 0 to |cs|
        invariant Valid()
        invariant forall i :: 0 <= i < 28 ==> BankAt(i) == LastBank(cs[..k], i, old(BankAt(i)))
        invariant k > 0 ==> !FMR[0]
      {
        assert cs[..k + 1][..k] == cs[..k];
        FilterInit(cs[k]);
      }
      assert cs[..|cs|] == cs;
      forall i, f | 0 <= i < 28 ensures BankAt(i).Accepts(f) == AskedLast(cs, i, f, old(BankAt(i))) {
        LastAccepts(cs, i, f, old(BankAt(i)));
      }
    }
  }

  ghost function LastBank(cs: seq<Init>, i: nat, before: Bank): Bank {
    if cs == [] then before
    else if cs[|cs| - 1].number == i then BankOf(cs[|cs| - 1])
    else LastBank(cs[..|cs| - 1], i, before)
  }

  /** What the last configuration of a bank says of a frame. */
  ghost predicate AskedLast(cs: seq<Init>, i: nat, f: Frame, before: Bank) {
    if cs == [] then before.Accepts(f)
    else if cs[|cs| - 1].number == i then AsksFor(cs[|cs| - 1], f)
    else AskedLast(cs[..|cs| - 1], i, f, before)
  }

  lemma {:induction false} LastAccepts(cs: seq<Init>, i: nat, f: Frame, before: Bank)
    requires forall c :: c in cs ==> InRange(c)
    ensures LastBank(cs, i, before).Accepts(f) == AskedLast(cs, i, f, before)
    decreases |cs|
  {
    if cs != [] {
      var c := cs[|cs| - 1];
      assert c in cs;
      if c.number == i {
        AcceptsWhatIsAsked(c, f);
      } else {
        LastAccepts(cs[..|cs| - 1], i, f, before);
      }
    }
  }

  /** Configurations of different banks commute: only the last one for each bank matters. */
  lemma {:induction false} OnlyLastMatters(cs: seq<Init>, ds: seq<Init>, i: nat, before: Bank)
    ensures LastBank(cs + ds, i, before) == LastBank(ds, i, LastBank(cs, i, before))
    decreases |ds|
  {
    if ds == [] {
      assert cs + ds == cs;
    } else {
      assert (cs + ds)[..|cs + ds| - 1] == cs + ds[..|ds| - 1];
      OnlyLastMatters(cs, ds[..|ds| - 1], i, before);
    }
  }
}
