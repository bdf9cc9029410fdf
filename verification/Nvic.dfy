/** Interrupt priorities and enables: the CMSIS functions of core_cm3.h, parametric in the number of
    implemented priority bits, and the peripheral library's own encoder in misc.c. */
module Nvic {
  import opened Words

  // ---- priority codes --------------------------------------------------------------------

  /** How a group splits the implemented bits. */
  function PreemptBits(group: nat, n: nat): nat {
    var g := group % 8;
    if 7 - g > n then n else 7 - g
  }

  function SubBits(group: nat, n: nat): nat {
    var g := group % 8;
    if g + n < 7 then 0 else g + n - 7
  }

  lemma BitsAddUp(group: nat, n: nat)
    ensures PreemptBits(group, n) + SubBits(group, n) == n
  {
  }

  /** NVIC_EncodePriority as the C expression; `(1 << k) - 1` is a mask of `k` ones. */
  function EncodeWord(group: nat, n: nat, preempt: nat, sub: nat): Word {
    Or(Shl(And(Of(preempt), Mask(0, PreemptBits(group, n))), SubBits(group, n)),
       And(Of(sub), Mask(0, SubBits(group, n))))
  }

  function Encode(group: nat, n: nat, preempt: nat, sub: nat): nat {
    Value(EncodeWord(group, n, preempt, sub))
  }

  /** NVIC_DecodePriority. */
  method Decode(priority: nat, group: nat, n: nat) returns (preempt: nat, sub: nat)
    requires n <= 32
    ensures (preempt, sub) == Decoded(priority, group, n)
  {
    var pb, sb := PreemptBits(group, n), SubBits(group, n);
    BitsAddUp(group, n);
    preempt := Value(And(Shr(Of(priority), sb), Mask(0, pb)));
    sub := Value(And(Of(priority), Mask(0, sb)));
    SliceValue(priority, sb, pb);
    LowValue(priority, sb);
  }

  /** What a code means: the bits above the sub-priority, and the sub-priority. */
  function Decoded(priority: nat, group: nat, n: nat): (nat, nat) {
    (priority / Pow2(SubBits(group, n)) % Pow2(PreemptBits(group, n)), priority % Pow2(SubBits(group, n)))
  }

  lemma LowBits(v: nat, k: nat)
    requires k <= 32
    ensures And(Of(v), Mask(0, k)) == Bits(v, k) + Zeros(32 - k)
  {
    BitsPrefix(v, 32, k);
  }

  lemma LowValue(v: nat, k: nat)
    requires k <= 32
    ensures Value(And(Of(v), Mask(0, k))) == v % Pow2(k)
    ensures And(Of(v), Mask(0, k)) == Bits(v, k) + Zeros(32 - k)
  {
    LowBits(v, k);
    ValueWidened(Bits(v, k), 32 - k);
    ValueOfBits(v, k);
  }

  lemma {:induction false} BitsDropped(v: nat, len: nat, k: nat)
    requires k <= len
    ensures Bits(v, len)[k..] == Bits(High(v, k), len - k)
  {
    if k > 0 {
      BitsDropped(v / 2, len - 1, k - 1);
      assert Bits(v, len)[k..] == Bits(v / 2, len - 1)[k - 1..];
    }
  }

  lemma SliceValue(v: nat, pos: nat, width: nat)
    requires pos + width <= 32
    ensures Value(And(Shr(Of(v), pos), Mask(0, width))) == v / Pow2(pos) % Pow2(width)
  {
    var high := High(v, pos);
    BitsDropped(v, 32, pos);
    BitsPrefix(high, 32 - pos, width);
    ShiftAndMask(Of(v), pos, width);
    assert Field(Of(v), pos, width) == Bits(high, width);
    ValueOfBits(high, width);
    ValueOfBits(v, pos);
  }

  /** The number a code is. */
  lemma EncodeValue(group: nat, n: nat, preempt: nat, sub: nat)
    requires n <= 32
    ensures Encode(group, n, preempt, sub) ==
            sub % Pow2(SubBits(group, n)) + Pow2(SubBits(group, n)) * (preempt % Pow2(PreemptBits(group, n)))
  {
    var pb, sb := PreemptBits(group, n), SubBits(group, n);
    BitsAddUp(group, n);
    LowValue(preempt, pb);
    LowValue(sub, sb);
    TwoParts(Bits(preempt, pb), Bits(sub, sb));
    ValueOfBits(preempt, pb);
    ValueOfBits(sub, sb);
  }

  lemma TwoParts(p: seq<bool>, s: seq<bool>)
    requires |p| + |s| <= 32
    ensures Value(Or(Shl(p + Zeros(32 - |p|), |s|), s + Zeros(32 - |s|))) == Value(s) + Pow2(|s|) * Value(p)
  {
    var rest := Zeros(32 - |s| - |p|);
    assert Or(Shl(p + Zeros(32 - |p|), |s|), s + Zeros(32 - |s|)) == s + (p + rest);
    ValueConcat(s, p + rest);
    ValueWidened(p, 32 - |s| - |p|);
  }

  /** Decoding an encoded pair gives back both parts, as far as their bits reach. */
  lemma DecodeOfEncode(group: nat, n: nat, preempt: nat, sub: nat)
    requires n <= 32
    ensures Decoded(Encode(group, n, preempt, sub), group, n) ==
            (preempt % Pow2(PreemptBits(group, n)), sub % Pow2(SubBits(group, n)))
  {
    var P, S := Pow2(PreemptBits(group, n)), Pow2(SubBits(group, n));
    var p, s := preempt % P, sub % S;
    EncodeValue(group, n, preempt, sub);
    DivModUnique(s + S * p, S, p, s);
    DivModUnique(p, P, 0, p);
  }

  /** Encoding a decoded code gives back the code's implemented bits. */
  lemma EncodeOfDecode(group: nat, n: nat, x: nat)
    requires n <= 32
    ensures var d := Decoded(x, group, n); Encode(group, n, d.0, d.1) == x % Pow2(n)
  {
    var pb, sb := PreemptBits(group, n), SubBits(group, n);
    var d := Decoded(x, group, n);
    EncodeValue(group, n, d.0, d.1);
    PowersMultiply(group, n);
    RecomposeTo(x, Pow2(n), Pow2(sb), Pow2(pb), d.0, d.1, Encode(group, n, d.0, d.1));
  }

  lemma PowersMultiply(group: nat, n: nat)
    ensures Pow2(n) == Pow2(SubBits(group, n)) * Pow2(PreemptBits(group, n))
  {
    BitsAddUp(group, n);
    Pow2Sum(SubBits(group, n), PreemptBits(group, n));
  }

  lemma RecomposeTo(x: nat, all: nat, a: nat, b: nat, high: nat, low: nat, code: nat)
    requires a > 0 && b > 0 && all == a * b && high == x / a % b && low == x % a
    requires code == low % a + a * (high % b)
    ensures all > 0 && code == x % all
  {
    Recompose(x, a, b, high, low);
  }

  /** A number from its two digits. */
  lemma Recompose(x: nat, a: nat, b: nat, high: nat, low: nat)
    requires a > 0 && b > 0 && high == x / a % b && low == x % a
    ensures a * b > 0 && low % a + a * (high % b) == x % (a * b)
  {
    Parts(x, a);
    RecomposeFrom(x, a, b, x / a, high, low);
  }

  lemma RecomposeFrom(x: nat, a: nat, b: nat, q: nat, high: nat, low: nat)
    requires a > 0 && b > 0 && x == a * q + low && low < a && high == q % b
    ensures a * b > 0 && low % a + a * (high % b) == x % (a * b)
  {
    ModTwice(q, b);
    DivModUnique(low, a, 0, low);
    Parts(q, b);
    FromDigits(x, a, b, q, q / b, high, low);
  }

  lemma ModTwice(v: nat, d: nat)
    requires d > 0
    ensures v % d % d == v % d
  {
    DivModUnique(v % d, d, 0, v % d);
  }

  lemma Parts(x: nat, a: nat)
    requires a > 0
    ensures x == a * (x / a) + x % a && x / a >= 0
  {
    MulAtLeast(x / a, a);
  }

  lemma FromDigits(x: nat, a: nat, b: nat, q: nat, top: nat, high: nat, low: nat)
    requires x == a * q + low && q == b * top + high && low < a && high < b
    ensures a * b > 0 && x % (a * b) == low + a * high
  {
    ProductBelow(a, b, high, low);
    Regroup(a, b, top, high);
    DivModUnique(x, a * b, top, a * high + low);
  }

  lemma ProductBelow(a: nat, b: nat, i: nat, r: nat)
    requires i < b && r < a
    ensures a * i + r < a * b
  {
    MulAtLeast(b - i, a);
    assert (b - i) * a == a * b - a * i;
  }

  lemma Regroup(a: nat, b: nat, c: nat, d: nat)
    ensures a * (b * c + d) == (a * b) * c + a * d
  {
  }

  /** Codes are ordered as the pairs they stand for, preempt priority first. */
  lemma EncodeKeepsOrder(group: nat, n: nat, p: nat, s: nat, p': nat, s': nat)
    requires n <= 32 && p < Pow2(PreemptBits(group, n)) && p' < Pow2(PreemptBits(group, n))
    requires s < Pow2(SubBits(group, n)) && s' < Pow2(SubBits(group, n))
    ensures Encode(group, n, p, s) < Encode(group, n, p', s') <==> p < p' || (p == p' && s < s')
  {
    var P, S := Pow2(PreemptBits(group, n)), Pow2(SubBits(group, n));
    EncodeValue(group, n, p, s);
    EncodeValue(group, n, p', s');
    DivModUnique(p, P, 0, p);
    DivModUnique(p', P, 0, p');
    DivModUnique(s, S, 0, s);
    DivModUnique(s', S, 0, s');
    Lexicographic(S, p, s, p', s');
  }

  lemma Lexicographic(base: nat, p: nat, s: nat, p': nat, s': nat)
    requires s < base && s' < base
    ensures s + base * p < s' + base * p' <==> p < p' || (p == p' && s < s')
  {
    MulAtLeast(p' - p, base);
    assert (p' - p) * base == base * p' - base * p;
  }

  // ---- the controller --------------------------------------------------------------------

  /** The byte NVIC_SetPriority stores: the priority left-aligned in eight bits. */
  function PriorityByte(priority: nat, n: nat): nat
    requires n <= 8
  {
    Value(And(Shl(Of(priority), 8 - n), Mask(0, 8)))
  }

  /** The byte shifted back, as NVIC_GetPriority returns it. */
  function Aligned(byte: nat, n: nat): nat
    requires n <= 8
  {
    High(byte, 8 - n)
  }

  lemma AlignedBits(w: Word, n: nat)
    requires n <= 8
    ensures And(Shl(w, 8 - n), Mask(0, 8)) == Zeros(8 - n) + w[..n] + Zeros(24)
  {
  }

  /** The stored byte keeps the implemented bits, left-aligned. */
  lemma PriorityByteValue(priority: nat, n: nat)
    requires n <= 8
    ensures PriorityByte(priority, n) == Pow2(8 - n) * (priority % Pow2(n))
    ensures Aligned(PriorityByte(priority, n), n) == priority % Pow2(n)
  {
    AlignedBits(Of(priority), n);
    BitsPrefix(priority, 32, n);
    AlignedValue(Bits(priority, n), 8 - n);
    ValueOfBits(priority, n);
    DivModUnique(PriorityByte(priority, n), Pow2(8 - n), priority % Pow2(n), 0);
    ValueOfBits(PriorityByte(priority, n), 8 - n);
  }

  lemma AlignedValue(b: seq<bool>, k: nat)
    ensures Value(Zeros(k) + b + Zeros(24)) == Pow2(k) * Value(b)
  {
    assert Zeros(k) + b + Zeros(24) == Zeros(k) + (b + Zeros(24));
    ValueConcat(Zeros(k), b + Zeros(24));
    ValueWidened(b, 24);
    ValueZeros(k);
  }

  /** The byte NVIC_Init computes, for the four priority bits of this family: `group` is the
      installed group, and the result is cut to a byte by the store. */
  function InitWord(group: nat, preempt: nat, sub: nat): Word
    requires 3 <= group <= 7
  {
    var tmppriority := 7 - group;
    var tmppre := 4 - tmppriority;
    var tmpsub := Shr(Mask(0, 4), tmppriority);
    Shl(Or(Shl(Of(preempt), tmppre), And(Of(sub), tmpsub)), 4)
  }

  /** The two encoders agree on every byte pair and every group the library can install. */
  lemma EncodersAgree(group: nat, preempt: nat, sub: nat)
    requires 3 <= group <= 7
    ensures Value(And(InitWord(group, preempt, sub), Mask(0, 8))) == PriorityByte(Encode(group, 4, preempt, sub), 4)
  {
    var a := Or(Shl(Of(preempt), group - 3), And(Of(sub), Shr(Mask(0, 4), 7 - group)));
    var b := EncodeWord(group, 4, preempt, sub);
    assert a[..4] == b[..4];
    OfValue(b);
    AlignedBits(a, 4);
    AlignedBits(b, 4);
  }

  class Controller {
    var AIRCR: Word
    var IP: seq<nat>
    var SHP: seq<nat>
    /** The enable bits behind ISER and ICER. */
    var enables: seq<Word>

    ghost predicate Valid()
      reads this
    {
      |IP| == 240 && |SHP| == 12 && |enables| == 8
    }

    ghost predicate Enabled(irq: nat)
      requires Valid() && irq < 240
      reads this
    {
      enables[irq / 32][irq % 32]
    }

    ghost function Group(): nat
      reads this
    {
      Value(Field(AIRCR, 8, 3))
    }

    /** A one written to ISER enables, a one written to ICER disables, a zero does nothing. */
    method WriteISER(i: nat, v: Word)
      requires Valid() && i < 8
      modifies this`enables
      ensures Valid() && enables == old(enables)[i := Or(old(enables)[i], v)]
    {
      enables := enables[i := Or(enables[i], v)];
    }

    method WriteICER(i: nat, v: Word)
      requires Valid() && i < 8
      modifies this`enables
      ensures Valid() && enables == old(enables)[i := And(old(enables)[i], Not(v))]
    {
      enables := enables[i := And(enables[i], Not(v))];
    }

    method EnableIRQ(irq: nat)
      requires Valid() && irq < 240
      modifies this`enables
      ensures Valid() && forall k :: 0 <= k < 240 ==> Enabled(k) == (k == irq || old(Enabled(k)))
    {
      WriteISER(irq / 32, Shl(Mask(0, 1), irq % 32));
    }

    method DisableIRQ(irq: nat)
      requires Valid() && irq < 240
      modifies this`enables
      ensures Valid() && forall k :: 0 <= k < 240 ==> Enabled(k) == (k != irq && old(Enabled(k)))
    {
      WriteICER(irq / 32, Shl(Mask(0, 1), irq % 32));
    }

    /** NVIC_SetPriority; a negative number names a system handler. */
    method SetPriority(irq: int, priority: nat, n: nat)
      requires Valid() && -12 <= irq < 240 && n <= 8
      modifies this`IP, this`SHP
      ensures Valid()
      ensures irq < 0 ==> IP == old(IP) && SHP == old(SHP)[irq + 12 := PriorityByte(priority, n)]
      ensures irq >= 0 ==> SHP == old(SHP) && IP == old(IP)[irq := PriorityByte(priority, n)]
    {
      var byte := Value(And(Shl(Of(priority), 8 - n), Mask(0, 8)));
      if irq < 0 {
        SHP := SHP[irq % 16 - 4 := byte];
      } else {
        IP := IP[irq := byte];
      }
    }

    /** The stored byte divided by the unused steps; for a byte that NVIC_SetPriority stored, the
        implemented bits of the priority that was set. */
    method GetPriority(irq: int, n: nat) returns (priority: nat)
      requires Valid() && -12 <= irq < 240 && n <= 8
      ensures priority == StoredByte(irq) / Pow2(8 - n)
      ensures forall p: nat :: StoredByte(irq) == PriorityByte(p, n) ==> priority == p % Pow2(n)
    {
      var byte := if irq < 0 then SHP[irq % 16 - 4] else IP[irq];
      assert irq < 0 ==> irq % 16 - 4 == irq + 12;
      priority := Aligned(byte, n);
      ValueOfBits(byte, 8 - n);
      forall p: nat | byte == PriorityByte(p, n) ensures priority == p % Pow2(n) {
        PriorityByteValue(p, n);
      }
    }

    ghost function StoredByte(irq: int): nat
      requires Valid() && -12 <= irq < 240
      reads this
    {
      if irq < 0 then SHP[irq + 12] else IP[irq]
    }

    /** A priority that is set and read back loses exactly the bits that are not implemented. */
    method SetAndGetPriority(irq: int, priority: nat, n: nat) returns (back: nat)
      requires Valid() && -12 <= irq < 240 && n <= 8
      modifies this`IP, this`SHP
      ensures Valid() && back == priority % Pow2(n)
    {
      SetPriority(irq, priority, n);
      back := GetPriority(irq, n);
    }

    /** NVIC_PriorityGroupConfig installs groups 3 to 7, under the unlock key in the upper half of the register. */
    method PriorityGroupConfig(code: nat)
      requires code % 0x100 == 0 && 3 <= code / 0x100 <= 7
      modifies this`AIRCR
      ensures 3 <= Group() <= 7 && Group() * 0x100 == code
      ensures Value(AIRCR) == 0x05FA_0000 + code
    {
      var g := code / 0x100;
      GroupStored(g);
      assert code == g * 0x100;
      SetAIRCR(WithKey(code), g);
    }

    /** A word with group `g` in its field is stored. */
    method SetAIRCR(w: Word, ghost g: nat)
      requires Value(Field(w, 8, 3)) == g
      modifies this`AIRCR
      ensures AIRCR == w && Group() == g
    {
      AIRCR := w;
    }

    /** The first step of NVIC_Init: seven minus the installed group. */
    method GroupPart() returns (tmppriority: nat)
      requires Group() <= 7
      ensures tmppriority == 7 - Group()
    {
      var masked := Value(And(AIRCR, Mask(8, 3)));
      GroupRead(AIRCR);
      tmppriority := (0x700 - masked) / 0x100;
    }

    /** The priority arithmetic of NVIC_Init, cut to the byte it is stored in. */
    method ComputePriority(preempt: nat, sub: nat) returns (byte: nat)
      requires 3 <= Group() <= 7
      ensures byte == PriorityByte(Encode(Group(), 4, preempt, sub), 4)
    {
      var tmppriority := GroupPart();
      var tmppre := 4 - tmppriority;
      var tmpsub := Shr(Mask(0, 4), tmppriority);
      var word := Or(Shl(Of(preempt), tmppre), And(Of(sub), tmpsub));
      EncodersAgree(Group(), preempt, sub);
      byte := Value(And(Shl(word, 4), Mask(0, 8)));
    }

    /** NVIC_Init: priority and enable, or disable. */
    method Init(irq: nat, preempt: nat, sub: nat, enable: bool)
      requires Valid() && irq < 240 && preempt < 256 && sub < 256 && 3 <= Group() <= 7
      modifies this`IP, this`enables
      ensures Valid()
      ensures IP == if enable
        then old(IP)[irq := PriorityByte(Encode(Group(), 4, preempt, sub), 4)] else old(IP)
      ensures enable ==>
        IP[irq] == 16 * (sub % Pow2(Group() - 3) + Pow2(Group() - 3) * (preempt % Pow2(7 - Group())))
      ensures forall k :: 0 <= k < 240 ==> Enabled(k) == if k == irq then enable else old(Enabled(k))
    {
      if enable {
        var byte := ComputePriority(preempt, sub);
        IP := IP[irq := byte];
        ByteStored(Group(), 4, preempt, sub);
        EnableIRQ(irq);
      } else {
        DisableIRQ(irq);
      }
    }

    /** Any run of calls. */
    method Run(cs: seq<Command>)
      requires Valid() && 3 <= Group() <= 7 && forall c :: c in cs ==> Legal(c)
      modifies this`IP, this`enables
      ensures Valid()
      ensures forall k :: 0 <= k < 240 ==> Enabled(k) == LastEnable(cs, k, old(Enabled(k)))
      ensures forall k :: 0 <= k < 240 ==> IP[k] == LastPriority(cs, k, Group(), old(IP)[k])
    {
      for i := 0 to |cs|
        invariant Valid()
        invariant forall k :: 0 <= k < 240 ==> Enabled(k) == LastEnable(cs[..i], k, old(Enabled(k)))
        invariant forall k :: 0 <= k < 240 ==> IP[k] == LastPriority(cs[..i], k, Group(), old(IP)[k])
      {
        assert cs[..i + 1][..i] == cs[..i];
        assert cs[i] in cs;
        match cs[i] {
          case Configure(irq, preempt, sub) => Init(irq, preempt, sub, true);
          case Off(irq) => Init(irq, 0, 0, false);
          case Enable(irq) => EnableIRQ(irq);
          case Disable(irq) => DisableIRQ(irq);
        }
      }
      assert cs[..|cs|] == cs;
    }
  }

  /** The byte of a pair: the sub-priority in its lowest implemented bits, the preemption priority above it. */
  lemma ByteOfPair(group: nat, n: nat, preempt: nat, sub: nat)
    requires n <= 8
    ensures PriorityByte(Encode(group, n, preempt, sub), n) ==
            var P, S := Pow2(PreemptBits(group, n)), Pow2(SubBits(group, n));
            Pow2(8 - n) * (sub % S + S * (preempt % P))
  {
    var code, P, S := Encode(group, n, preempt, sub), Pow2(PreemptBits(group, n)), Pow2(SubBits(group, n));
    EncodeValue(group, n, preempt, sub);
    PowersMultiply(group, n);
    ProductBelow(S, P, preempt % P, sub % S);
    DivModUnique(code, Pow2(n), 0, code);
    PriorityByteValue(code, n);
  }

  lemma ByteStored(group: nat, n: nat, preempt: nat, sub: nat)
    requires 3 <= group <= 7 && n == 4
    ensures PriorityByte(Encode(group, n, preempt, sub), n) ==
            16 * (sub % Pow2(group - 3) + Pow2(group - 3) * (preempt % Pow2(7 - group)))
  {
    ByteOfPair(group, n, preempt, sub);
    assert SubBits(group, n) == group - 3 && PreemptBits(group, n) == 7 - group;
    assert Pow2(8 - n) == 16 by {
      SmallPowers();
    }
  }

  lemma GroupRead(aircr: Word)
    ensures Value(And(aircr, Mask(8, 3))) == 0x100 * Value(Field(aircr, 8, 3))
  {
    FieldInPlace(aircr, 8, 3);
    assert Pow2(8) == 0x100;
  }

  const AIRCR_VECTKEY_MASK := 0x05FA_0000

  function WithKey(code: nat): Word {
    Or(Of(AIRCR_VECTKEY_MASK), Of(code))
  }

  /** The key fills the upper half and leaves the group its field. */
  lemma GroupStored(g: nat)
    requires g < 8
    ensures Value(Field(WithKey(g * 0x100), 8, 3)) == g
    ensures Value(WithKey(g * 0x100)) == 0x05FA_0000 + g * 0x100
  {
    KeyAndGroup(g);
    KeyApart(Bits(0x05FA, 16), Bits(g, 3));
    ValueOf(AIRCR_VECTKEY_MASK);
    ValueOf(g * 0x100);
  }

  lemma KeyAndGroup(g: nat)
    requires g < 8
    ensures Of(AIRCR_VECTKEY_MASK) == Placed(16, Bits(0x05FA, 16)) && Of(g * 0x100) == Placed(8, Bits(g, 3))
    ensures Value(Bits(g, 3)) == g
  {
    assert Pow2(16) == 0x1_0000 && Pow2(8) == 0x100 && Pow2(3) == 8 by {
      SmallPowers();
    }
    ScalePlaces(g * 0x100, g, 8, 3);
    ScalePlaces(AIRCR_VECTKEY_MASK, 0x05FA, 16, 16);
    FieldValue(g, 3);
  }

  lemma KeyApart(key: seq<bool>, group: seq<bool>)
    requires |key| == 16 && |group| == 3
    ensures Field(Or(Placed(16, key), Placed(8, group)), 8, 3) == group
    ensures Value(Or(Placed(16, key), Placed(8, group))) == Value(Placed(16, key)) + Value(Placed(8, group))
  {
    UnionValue(Placed(16, key), Placed(8, group));
  }

  // ---- runs ------------------------------------------------------------------------------

  datatype Command =
    | Configure(irq: nat, preempt: nat, sub: nat)
    | Off(irq: nat)
    | Enable(irq: nat)
    | Disable(irq: nat)

  predicate Legal(c: Command) {
    c.irq < 240 && (c.Configure? ==> c.preempt < 256 && c.sub < 256)
  }

  ghost function LastEnable(cs: seq<Command>, irq: nat, before: bool): bool {
    if cs == [] then before
    else
      var c := cs[|cs| - 1];
      if c.irq == irq then c.Configure? || c.Enable? else LastEnable(cs[..|cs| - 1], irq, before)
  }

  ghost function LastPriority(cs: seq<Command>, irq: nat, group: nat, before: nat): nat {
    if cs == [] then before
    else
      var c := cs[|cs| - 1];
      if c.irq == irq && c.Configure? then PriorityByte(Encode(group, 4, c.preempt, c.sub), 4)
      else LastPriority(cs[..|cs| - 1], irq, group, before)
  }
}
