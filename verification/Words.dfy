/** 32-bit register words and the packed fields in them.

    A word is its 32 bits, least significant first. The C operators act bit by bit, so a shift
    drops what leaves the word. A packed field is a slice of the word, for any position and any
    width, and the driver idiom "clear under a mask, then OR in a shifted value" is a splice. */
module Words {

  type Word = w: seq<bool> | |w| == 32 witness seq(32, _ => false)

  // ---- the C operators -------------------------------------------------------------------

  function And(a: Word, b: Word): Word {
    seq(32, i requires 0 <= i < 32 => a[i] && b[i])
  }

  function Or(a: Word, b: Word): Word {
    seq(32, i requires 0 <= i < 32 => a[i] || b[i])
  }

  function Not(a: Word): Word {
    seq(32, i requires 0 <= i < 32 => !a[i])
  }

  function Shl(a: Word, n: nat): Word {
    seq(32, i requires 0 <= i < 32 => n <= i && a[i - n])
  }

  function Shr(a: Word, n: nat): Word {
    seq(32, i requires 0 <= i < 32 => i + n < 32 && a[i + n])
  }

  // ---- numbers ---------------------------------------------------------------------------

  function Pow2(n: nat): (p: nat)
    ensures p >= 1
  {
    if n == 0 then 1 else 2 * Pow2(n - 1)
  }

  function Zeros(n: nat): seq<bool> {
    seq(n, _ => false)
  }

  /** The low `len` bits of a number. */
  function Bits(n: nat, len: nat): (s: seq<bool>)
    ensures |s| == len
  {
    if len == 0 then [] else [n % 2 == 1] + Bits(n / 2, len - 1)
  }

  function Value(s: seq<bool>): nat {
    if s == [] then 0 else (if s[0] then 1 else 0) + 2 * Value(s[1..])
  }

  /** A C value converted to uint32_t. */
  function Of(n: nat): Word {
    Bits(n, 32)
  }

  lemma DoubleProduct(a: int, b: int)
    ensures (2 * a) * b == 2 * (a * b)
  {
  }

  lemma {:induction false} Pow2Sum(a: nat, b: nat)
    ensures Pow2(a + b) == Pow2(a) * Pow2(b)
  {
    if a > 0 {
      Pow2Sum(a - 1, b);
      DoubleProduct(Pow2(a - 1), Pow2(b));
    }
  }

  lemma {:induction false} ValueBound(s: seq<bool>)
    ensures Value(s) < Pow2(|s|)
  {
    if s != [] {
      ValueBound(s[1..]);
    }
  }

  lemma {:induction false} BitsOfValue(s: seq<bool>)
    ensures Bits(Value(s), |s|) == s
  {
    if s != [] {
      BitsOfValue(s[1..]);
      assert s == [s[0]] + s[1..];
    }
  }

  /** What is left of a number above its low `len` bits. */
  function High(n: nat, len: nat): nat {
    if len == 0 then n else High(n / 2, len - 1)
  }

  lemma {:induction false} SplitNumber(n: nat, len: nat)
    ensures n == Pow2(len) * High(n, len) + Value(Bits(n, len))
  {
    if len > 0 {
      SplitNumber(n / 2, len - 1);
      assert Bits(n, len)[1..] == Bits(n / 2, len - 1);
      DoubleProduct(Pow2(len - 1), High(n / 2, len - 1));
    }
  }

  lemma ValueOfBits(n: nat, len: nat)
    ensures Value(Bits(n, len)) == n % Pow2(len)
    ensures High(n, len) == n / Pow2(len)
  {
    SplitNumber(n, len);
    ValueBound(Bits(n, len));
    DivModUnique(n, Pow2(len), High(n, len), Value(Bits(n, len)));
  }

  lemma MulAtLeast(k: int, d: nat)
    ensures k >= 1 ==> k * d >= d
    ensures k <= -1 ==> k * d <= -(d as int)
  {
    if k >= 1 {
      assert k * d == (k - 1) * d + d;
    } else if k <= -1 {
      assert k * d == (k + 1) * d - d;
    }
  }

  lemma DivModUnique(n: nat, d: nat, q: nat, r: nat)
    requires r < d && n == d * q + r
    ensures n / d == q && n % d == r
  {
    var k := n / d - q;
    assert n == d * (n / d) + n % d;
    assert k * d == r - n % d;
    MulAtLeast(k, d);
  }

  /** A number that fits a field reads back from it. */
  lemma FieldValue(v: nat, width: nat)
    requires v < Pow2(width)
    ensures Value(Bits(v, width)) == v
  {
    ValueOfBits(v, width);
    DivModUnique(v, Pow2(width), 0, v);
  }

  lemma {:induction false} ValueConcat(a: seq<bool>, b: seq<bool>)
    ensures Value(a + b) == Value(a) + Pow2(|a|) * Value(b)
  {
    if a == [] {
      assert a + b == b;
    } else {
      ValueConcat(a[1..], b);
      assert (a + b)[1..] == a[1..] + b;
      DoubleProduct(Pow2(|a| - 1), Value(b));
    }
  }

  lemma {:induction false} ValueZeros(n: nat)
    ensures Value(Zeros(n)) == 0
  {
    if n > 0 {
      ValueZeros(n - 1);
      assert Zeros(n)[1..] == Zeros(n - 1);
    }
  }

  /** Zeros above add nothing. */
  lemma ValueWidened(b: seq<bool>, n: nat)
    ensures Value(b + Zeros(n)) == Value(b)
  {
    ValueConcat(b, Zeros(n));
    ValueZeros(n);
    TimesZero(Pow2(|b|));
  }

  lemma TimesZero(a: int)
    ensures a * 0 == 0
  {
  }

  lemma {:induction false} BitsPrefix(n: nat, len: nat, k: nat)
    requires k <= len
    ensures Bits(n, len)[..k] == Bits(n, k)
  {
    if k > 0 {
      BitsPrefix(n / 2, len - 1, k - 1);
      assert Bits(n, len)[..k] == [n % 2 == 1] + Bits(n / 2, len - 1)[..k - 1];
    }
  }

  /** A value that fits `width` bits has only zeros above them. */
  lemma BitsWiden(n: nat, width: nat, len: nat)
    requires width <= len && n < Pow2(width)
    ensures Bits(n, len) == Bits(n, width) + Zeros(len - width)
  {
    var narrow := Bits(n, width);
    FieldValue(n, width);
    ValueWidened(narrow, len - width);
    BitsOfValue(narrow + Zeros(len - width));
  }

  /** Multiplying by a power of two shifts the bits up. */
  lemma {:induction false} BitsScaled(x: nat, pos: nat, len: nat)
    requires pos <= len
    ensures Bits(Pow2(pos) * x, len) == Zeros(pos) + Bits(x, len - pos)
  {
    if pos == 0 {
      assert Pow2(0) * x == x;
      assert Zeros(0) + Bits(x, len) == Bits(x, len);
    } else {
      var half := Pow2(pos - 1) * x;
      DoubleProduct(Pow2(pos - 1), x);
      BitsScaled(x, pos - 1, len - 1);
      assert Zeros(pos) == [false] + Zeros(pos - 1);
    }
  }

  // ---- masks -----------------------------------------------------------------------------

  /** A mask with `width` ones from bit `pos` upwards. */
  function Mask(pos: nat, width: nat): Word {
    seq(32, i => pos <= i < pos + width)
  }

  lemma {:induction false} ValueOnes(n: nat)
    ensures Value(seq(n, _ => true)) == Pow2(n) - 1
  {
    if n > 0 {
      ValueOnes(n - 1);
      assert seq(n, _ => true)[1..] == seq(n - 1, _ => true);
    }
  }

  /** The number a mask is written as. */
  lemma MaskValue(pos: nat, width: nat)
    requires pos + width <= 32
    ensures Value(Mask(pos, width)) == Pow2(pos) * (Pow2(width) - 1)
  {
    var ones := seq(width, _ => true);
    var tail := ones + Zeros(32 - pos - width);
    assert Mask(pos, width) == Zeros(pos) + tail;
    ValueConcat(Zeros(pos), tail);
    ValueWidened(ones, 32 - pos - width);
    ValueZeros(pos);
    ValueOnes(width);
  }

  lemma {:induction false} ValueComplement(s: seq<bool>, t: seq<bool>)
    requires |s| == |t| && forall i :: 0 <= i < |s| ==> t[i] == !s[i]
    ensures Value(s) + Value(t) == Pow2(|s|) - 1
  {
    if s != [] {
      ValueComplement(s[1..], t[1..]);
    }
  }

  lemma SmallPowers()
    ensures Pow2(0) == 0x1
    ensures Pow2(1) == 0x2
    ensures Pow2(2) == 0x4
    ensures Pow2(3) == 0x8
    ensures Pow2(4) == 0x10
    ensures Pow2(5) == 0x20
    ensures Pow2(6) == 0x40
    ensures Pow2(7) == 0x80
    ensures Pow2(8) == 0x100
    ensures Pow2(9) == 0x200
    ensures Pow2(10) == 0x400
    ensures Pow2(11) == 0x800
    ensures Pow2(12) == 0x1000
    ensures Pow2(13) == 0x2000
    ensures Pow2(14) == 0x4000
    ensures Pow2(15) == 0x8000
    ensures Pow2(16) == 0x10000
  {
  }

  lemma LargePowers()
    ensures Pow2(18) == 0x40000
    ensures Pow2(20) == 0x100000
    ensures Pow2(24) == 0x1000000
    ensures Pow2(26) == 0x4000000
    ensures Pow2(28) == 0x10000000
    ensures Pow2(30) == 0x40000000
  {
    SmallPowers();
    Pow2Sum(16, 2);
    Pow2Sum(16, 4);
    Pow2Sum(16, 8);
    Pow2Sum(16, 10);
    Pow2Sum(16, 12);
    Pow2Sum(16, 14);
  }

  lemma Pow2Of32()
    ensures Pow2(32) == 0x1_0000_0000
  {
    SmallPowers();
    Pow2Sum(16, 16);
  }

  lemma ValueOf(n: nat)
    requires n < 0x1_0000_0000
    ensures Value(Of(n)) == n
  {
    Pow2Of32();
    FieldValue(n, 32);
  }

  lemma OfValue(w: Word)
    ensures Of(Value(w)) == w
  {
    BitsOfValue(w);
  }

  /** Masking a single bit. */
  lemma OneBit(w: Word, k: nat)
    requires k < 32
    ensures And(w, Mask(k, 1)) != Zeros(32) <==> w[k]
  {
    assert And(w, Mask(k, 1))[k] == w[k];
    if !w[k] {
      assert And(w, Mask(k, 1)) == Zeros(32);
    }
  }

  /** The number a clearing constant such as 0xFFFFFF0F is written as. */
  lemma ClearMaskValue(pos: nat, width: nat)
    requires pos + width <= 32
    ensures Value(Not(Mask(pos, width))) == 0xFFFF_FFFF - Pow2(pos) * (Pow2(width) - 1)
  {
    MaskValue(pos, width);
    Complement(Mask(pos, width));
  }

  lemma Complement(w: Word)
    ensures Value(Not(w)) == 0xFFFF_FFFF - Value(w)
  {
    ValueComplement(w, Not(w));
    Pow2Of32();
  }

  lemma UnionValue(a: Word, b: Word)
    requires forall i :: 0 <= i < 32 ==> !(a[i] && b[i])
    ensures Value(Or(a, b)) == Value(a) + Value(b)
  {
    ValueOfUnion(a, b, Or(a, b));
  }

  lemma UnionValue3(a: Word, b: Word, c: Word)
    requires forall i :: 0 <= i < 32 ==> !(a[i] && b[i]) && !(a[i] && c[i]) && !(b[i] && c[i])
    ensures Value(Or(Or(a, b), c)) == Value(a) + Value(b) + Value(c)
  {
    UnionValue(a, b);
    UnionValue(Or(a, b), c);
  }

  lemma ClearMaskValue2(pos: nat, width: nat, pos2: nat, width2: nat)
    requires pos + width <= pos2 && pos2 + width2 <= 32
    ensures Value(Not(Or(Mask(pos, width), Mask(pos2, width2)))) ==
            0xFFFF_FFFF - Value(Mask(pos, width)) - Value(Mask(pos2, width2))
  {
    UnionValue(Mask(pos, width), Mask(pos2, width2));
    Complement(Or(Mask(pos, width), Mask(pos2, width2)));
  }

  lemma ClearMaskValue3(pos: nat, width: nat, pos2: nat, width2: nat, pos3: nat, width3: nat)
    requires pos + width <= pos2 && pos2 + width2 <= pos3 && pos3 + width3 <= 32
    ensures Value(Not(Or(Or(Mask(pos, width), Mask(pos2, width2)), Mask(pos3, width3)))) ==
            0xFFFF_FFFF - Value(Mask(pos, width)) - Value(Mask(pos2, width2)) - Value(Mask(pos3, width3))
  {
    UnionValue3(Mask(pos, width), Mask(pos2, width2), Mask(pos3, width3));
    Complement(Or(Or(Mask(pos, width), Mask(pos2, width2)), Mask(pos3, width3)));
  }

  lemma ShiftedMask(pos: nat, width: nat)
    requires pos + width <= 32
    ensures Shl(Mask(0, width), pos) == Mask(pos, width)
  {
  }

  // ---- fields ----------------------------------------------------------------------------

  function Field(w: Word, pos: nat, width: nat): seq<bool>
    requires pos + width <= 32
  {
    w[pos..pos + width]
  }

  /** The word with the bits from `pos` upwards replaced by `f`, and no other bit changed. */
  function Splice(w: Word, pos: nat, f: seq<bool>): Word
    requires pos + |f| <= 32
  {
    w[..pos] + f + w[pos + |f|..]
  }

  lemma FieldOfSplice(w: Word, pos: nat, f: seq<bool>, q: nat, width: nat)
    requires pos + |f| <= 32 && q + width <= 32
    ensures q == pos && width == |f| ==> Field(Splice(w, pos, f), q, width) == f
    ensures q + width <= pos || pos + |f| <= q ==> Field(Splice(w, pos, f), q, width) == Field(w, q, width)
  {
  }

  lemma SplicesCommute(w: Word, pos: nat, f: seq<bool>, q: nat, g: seq<bool>)
    requires pos + |f| <= 32 && q + |g| <= 32
    requires q + |g| <= pos || pos + |f| <= q
    ensures Splice(Splice(w, pos, f), q, g) == Splice(Splice(w, q, g), pos, f)
  {
  }

  lemma SpliceTwice(w: Word, pos: nat, f: seq<bool>, g: seq<bool>)
    requires |f| == |g| && pos + |f| <= 32
    ensures Splice(Splice(w, pos, f), pos, g) == Splice(w, pos, g)
  {
  }

  /** A word that is zero outside one field. */
  function Placed(pos: nat, f: seq<bool>): Word
    requires pos + |f| <= 32
  {
    Zeros(pos) + f + Zeros(32 - pos - |f|)
  }

  lemma ShiftPlaces(v: nat, pos: nat, width: nat)
    requires pos + width <= 32 && v < Pow2(width)
    ensures Shl(Of(v), pos) == Placed(pos, Bits(v, width))
  {
    BitsWiden(v, width, 32);
    ShiftWidened(Bits(v, width), pos);
  }

  lemma ShiftWidened(f: seq<bool>, pos: nat)
    requires pos + |f| <= 32
    ensures Shl(f + Zeros(32 - |f|), pos) == Placed(pos, f)
  {
  }

  lemma ScalePlaces(v: nat, x: nat, pos: nat, width: nat)
    requires pos + width <= 32 && x < Pow2(width) && v == Pow2(pos) * x
    ensures Of(v) == Placed(pos, Bits(x, width))
  {
    BitsScaled(x, pos, 32);
    BitsWiden(x, width, 32 - pos);
  }

  /** A whole register setter: clear the field, OR in a code that is already in position. */
  lemma SetField(w: Word, v: nat, x: nat, pos: nat, width: nat)
    requires pos + width <= 32 && x < Pow2(width) && v == Pow2(pos) * x
    ensures Or(And(w, Not(Mask(pos, width))), Of(v)) == Splice(w, pos, Bits(x, width))
    ensures Value(Field(Splice(w, pos, Bits(x, width)), pos, width)) == x
  {
    ScalePlaces(v, x, pos, width);
    ClearAndSet(w, pos, Bits(x, width));
    FieldOfSplice(w, pos, Bits(x, width), pos, width);
    FieldValue(x, width);
  }

  /** The driver idiom `(w & ~(ones << pos)) | v`, with `v` inside the field. */
  lemma ClearAndSet(w: Word, pos: nat, f: seq<bool>)
    requires pos + |f| <= 32
    ensures Or(And(w, Not(Mask(pos, |f|))), Placed(pos, f)) == Splice(w, pos, f)
  {
  }

  /** Two fields cleared together and set together. */
  lemma ClearAndSet2(w: Word, pos: nat, f: seq<bool>, pos2: nat, g: seq<bool>)
    requires pos + |f| <= pos2 && pos2 + |g| <= 32
    ensures Or(And(w, Not(Or(Mask(pos, |f|), Mask(pos2, |g|)))), Or(Placed(pos, f), Placed(pos2, g))) ==
            Splice(Splice(w, pos, f), pos2, g)
  {
  }

  lemma ClearAndSet3(w: Word, pos: nat, f: seq<bool>, pos2: nat, g: seq<bool>, pos3: nat, h: seq<bool>)
    requires pos + |f| <= pos2 && pos2 + |g| <= pos3 && pos3 + |h| <= 32
    ensures Or(And(w, Not(Or(Or(Mask(pos, |f|), Mask(pos2, |g|)), Mask(pos3, |h|)))),
               Or(Or(Placed(pos, f), Placed(pos2, g)), Placed(pos3, h))) ==
            Splice(Splice(Splice(w, pos, f), pos2, g), pos3, h)
  {
    var m, v := Or(Mask(pos, |f|), Mask(pos2, |g|)), Or(Placed(pos, f), Placed(pos2, g));
    ClearAndSet2(w, pos, f, pos2, g);
    ClearAndSet(Or(And(w, Not(m)), v), pos3, h);
    assert Or(And(w, Not(Or(m, Mask(pos3, |h|)))), Or(v, Placed(pos3, h))) ==
           Or(And(Or(And(w, Not(m)), v), Not(Mask(pos3, |h|))), Placed(pos3, h)) by {
      assert forall i :: 0 <= i < 32 && v[i] ==> i < pos3;
    }
  }

  /** Reading a field: `(w >> pos) & ones`. */
  lemma ShiftAndMask(w: Word, pos: nat, width: nat)
    requires pos + width <= 32
    ensures Value(And(Shr(w, pos), Mask(0, width))) == Value(Field(w, pos, width))
    ensures Value(Shr(And(w, Mask(pos, width)), pos)) == Value(Field(w, pos, width))
    ensures Value(Field(w, pos, width)) < Pow2(width)
  {
    var f := Field(w, pos, width);
    var wide := f + Zeros(32 - width);
    assert And(Shr(w, pos), Mask(0, width)) == wide;
    assert Shr(And(w, Mask(pos, width)), pos) == wide;
    ValueWidened(f, 32 - width);
    ValueBound(f);
  }

  /** A field masked but not shifted counts its place value. */
  lemma FieldInPlace(w: Word, pos: nat, width: nat)
    requires pos + width <= 32
    ensures Value(And(w, Mask(pos, width))) == Pow2(pos) * Value(Field(w, pos, width))
  {
    var f, rest := Field(w, pos, width), Zeros(32 - pos - width);
    assert And(w, Mask(pos, width)) == Zeros(pos) + (f + rest);
    ValueConcat(Zeros(pos), f + rest);
    ValueWidened(f, 32 - pos - width);
    ValueZeros(pos);
  }

  /** Words without a common one bit: OR adds their numbers. */
  lemma {:induction false} ValueOfUnion(a: seq<bool>, b: seq<bool>, c: seq<bool>)
    requires |a| == |b| == |c|
    requires forall i :: 0 <= i < |a| ==> !(a[i] && b[i]) && c[i] == (a[i] || b[i])
    ensures Value(c) == Value(a) + Value(b)
  {
    if a != [] {
      ValueOfUnion(a[1..], b[1..], c[1..]);
    }
  }

  // ---- tables of equal fields ------------------------------------------------------------

  /** Entry `slot` of a table of `width`-bit entries. */
  function Entry(w: Word, slot: nat, width: nat): nat
    requires slot * width + width <= 32
  {
    Value(Field(w, slot * width, width))
  }

  lemma SlotsApart(a: nat, b: nat, width: nat)
    ensures a < b ==> a * width + width <= b * width
  {
    if a < b {
      MulAtLeast(b - a, width);
      assert (b - a) * width == b * width - a * width;
    }
  }

  /** Writing entry `slot` of a packed table changes that entry and no other. */
  lemma EntryWritten(w: Word, slot: nat, width: nat, v: nat, other: nat)
    requires slot * width + width <= 32 && other * width + width <= 32 && v < Pow2(width)
    ensures Entry(Splice(w, slot * width, Bits(v, width)), other, width) ==
            if other == slot then v else Entry(w, other, width)
  {
    SlotsApart(slot, other, width);
    SlotsApart(other, slot, width);
    FieldWritten(w, slot * width, width, v, other * width);
  }

  lemma FieldWritten(w: Word, pos: nat, width: nat, v: nat, q: nat)
    requires pos + width <= 32 && q + width <= 32 && v < Pow2(width)
    requires q == pos || q + width <= pos || pos + width <= q
    ensures q == pos ==> Value(Field(Splice(w, pos, Bits(v, width)), q, width)) == v
    ensures q + width <= pos || pos + width <= q ==>
      Value(Field(Splice(w, pos, Bits(v, width)), q, width)) == Value(Field(w, q, width))
  {
    FieldValue(v, width);
    FieldOfSplice(w, pos, Bits(v, width), q, width);
  }

  /** The read-modify-write the driver does on a table word. */
  lemma EntryWriteWord(w: Word, slot: nat, width: nat, v: nat)
    requires slot * width + width <= 32 && v < Pow2(width)
    ensures Or(And(w, Not(Shl(Mask(0, width), slot * width))), Shl(Of(v), slot * width)) ==
            Splice(w, slot * width, Bits(v, width))
  {
    ShiftedMask(slot * width, width);
    ShiftPlaces(v, slot * width, width);
    ClearAndSet(w, slot * width, Bits(v, width));
  }
}
