/** The clock tree of the connectivity line devices: the configuration functions pack dividers and
    multipliers into CFGR and CFGR2, and RCC_GetClocksFreq decodes them (stm32f10x_rcc.c). */
module Rcc {
  import opened Common
  import opened Words

  // ---- the fields ------------------------------------------------------------------------

  /** The register fields as numbers. */
  datatype Tree = Tree(
    sw: nat, sws: nat, hpre: nat, ppre1: nat, ppre2: nat, adcpre: nat, pllsrc: nat, pllmul: nat,
    prediv1: nat, prediv2: nat, pll2mul: nat, prediv1src: nat)

  ghost predicate InRange(t: Tree) {
    && t.sw < 4 && t.sws < 4 && t.hpre < 16 && t.ppre1 < 8 && t.ppre2 < 8 && t.adcpre < 4 && t.pllsrc < 2
    && t.pllmul < 16 && t.prediv1 < 16 && t.prediv2 < 16 && t.pll2mul < 16 && t.prediv1src < 2
  }

  function F(w: Word, pos: nat, width: nat): nat
    requires pos + width <= 32
  {
    Value(Field(w, pos, width))
  }

  function TreeOf(cfgr: Word, cfgr2: Word): Tree {
    Tree(F(cfgr, 0, 2), F(cfgr, 2, 2), F(cfgr, 4, 4), F(cfgr, 8, 3), F(cfgr, 11, 3), F(cfgr, 14, 2),
         F(cfgr, 16, 1), F(cfgr, 18, 4), F(cfgr2, 0, 4), F(cfgr2, 4, 4), F(cfgr2, 8, 4), F(cfgr2, 16, 1))
  }

  lemma FieldBound(w: Word, pos: nat, width: nat, bound: nat)
    requires pos + width <= 32 && bound == Pow2(width)
    ensures F(w, pos, width) < bound
  {
    ValueBound(Field(w, pos, width));
  }

  lemma TreeInRange(cfgr: Word, cfgr2: Word)
    ensures InRange(TreeOf(cfgr, cfgr2))
  {
    FieldBound(cfgr, 0, 2, 4);
    FieldBound(cfgr, 2, 2, 4);
    FieldBound(cfgr, 4, 4, 16);
    FieldBound(cfgr, 8, 3, 8);
    FieldBound(cfgr, 11, 3, 8);
    FieldBound(cfgr, 14, 2, 4);
    FieldBound(cfgr, 16, 1, 2);
    FieldBound(cfgr, 18, 4, 16);
    FieldBound(cfgr2, 0, 4, 16);
    FieldBound(cfgr2, 4, 4, 16);
    FieldBound(cfgr2, 8, 4, 16);
    FieldBound(cfgr2, 16, 1, 2);
  }

  /** Every field that does not overlap a splice keeps its number. */
  lemma OthersKept(w: Word, pos: nat, f: seq<bool>)
    requires pos + |f| <= 32
    ensures forall q: nat, width: nat :: q + width <= 32 && (q + width <= pos || pos + |f| <= q) ==>
      F(Splice(w, pos, f), q, width) == F(w, q, width)
  {
    forall q: nat, width: nat | q + width <= 32 && (q + width <= pos || pos + |f| <= q)
      ensures F(Splice(w, pos, f), q, width) == F(w, q, width)
    {
      FieldOfSplice(w, pos, f, q, width);
    }
  }

  // ---- frequencies -----------------------------------------------------------------------

  function PrescalerShift(code: nat): (s: nat)
    requires code < 16
    ensures s <= 9
  {
    [0, 0, 0, 0, 1, 2, 3, 4, 1, 2, 3, 4, 6, 7, 8, 9][code]
  }

  function AdcDivider(code: nat): (d: nat)
    requires code < 4
    ensures d > 0
  {
    [2, 4, 6, 8][code]
  }

  /** The divider a prescaler code stands for. */
  function Divider(code: nat): (d: nat)
    requires code < 16
    ensures d > 0
  {
    Pow2(PrescalerShift(code))
  }

  /** A prescaler code's divider, from the parameter's documented meaning. */
  function Divider16(code: nat): nat {
    if code < 16 then [1, 1, 1, 1, 2, 4, 8, 16, 2, 4, 8, 16, 64, 128, 256, 512][code] else 1
  }

  lemma DividersListed(code: nat)
    requires code < 16
    ensures Divider(code) == Divider16(code)
  {
    SmallPowers();
  }

  /** Floor division by a divider or a product of dividers. */
  function Floor(a: nat, d: nat): (q: nat)
    requires d > 0
    ensures d * q <= a < d * (q + 1)
  {
    assert a == d * (a / d) + a % d;
    assert a / d >= 0 by {
      MulAtLeast(a / d, d);
    }
    a / d
  }

  function Product(a: nat, b: nat): (p: nat)
    requires a > 0 && b > 0
    ensures p > 0
  {
    MulAtLeast(b, a);
    a * b
  }

  lemma FloorUnique(a: nat, d: nat, q: nat)
    requires d > 0 && d * q <= a < d * (q + 1)
    ensures Floor(a, d) == q
  {
    DivModUnique(a, d, q, a - d * q);
  }

  /** Dividing twice is dividing once by the product. */
  lemma FloorTwice(a: nat, b: nat, c: nat)
    requires b > 0 && c > 0
    ensures Floor(Floor(a, b), c) == Floor(a, Product(b, c))
  {
    var q := Floor(a, b);
    var z := Floor(q, c);
    TwoFloors(a, b, c, q, z);
    MulAtLeast(c, b);
    FloorUnique(a, Product(b, c), z);
  }

  lemma TwoFloors(a: nat, b: nat, c: nat, q: nat, z: nat)
    requires b * q <= a < b * (q + 1) && c * z <= q < c * (z + 1)
    ensures (b * c) * z <= a < (b * c) * (z + 1)
  {
    ScaleUp(c * z, q, b);
    ScaleUp(q + 1, c * (z + 1), b);
    Regroup3(b, c, z);
    Regroup3(b, c, z + 1);
  }

  lemma Regroup3(a: int, b: int, c: int)
    ensures a * (b * c) == (a * b) * c
  {
  }

  lemma ScaleUp(x: nat, y: nat, k: nat)
    requires x <= y
    ensures k * x <= k * y
  {
    assert k * y == k * x + k * (y - x);
  }

  /** A shift right is a floor division by a power of two. */
  lemma ShiftIsFloor(a: nat, k: nat)
    ensures High(a, k) == Floor(a, Pow2(k))
  {
    SplitNumber(a, k);
    ValueBound(Bits(a, k));
    assert Pow2(k) * (High(a, k) + 1) == Pow2(k) * High(a, k) + Pow2(k);
    FloorUnique(a, Pow2(k), High(a, k));
  }

  /** 32-bit multiplication. */
  function Mul32(a: nat, b: nat): nat {
    a * b % U32
  }

  /** The PLL factor the getter uses; factor 6.5 is cut to 6. */
  function PllFactor(code: nat): nat {
    if code != 13 then code + 2 else 6
  }

  function Pll2Factor(code: nat): nat {
    code + 2
  }

  /** The factors the codes stand for, doubled because one of them is six and a half. */
  function TwicePllFactor(code: nat): nat {
    if code == 13 then 13 else 2 * (code + 2)
  }

  function TruePll2Factor(code: nat): nat {
    if code == 15 then 20 else code + 2
  }

  /** The system clock frequency as the getter computes it. */
  function Sysclk(t: Tree, hse: nat, hsi: nat): nat {
    if t.sws == 1 then hse
    else if t.sws == 2 then
      var m := PllFactor(t.pllmul);
      if t.pllsrc == 0 then Mul32(hsi / 2, m) else Mul32(Prediv1Clock(t, hse), m)
    else hsi
  }

  /** The PLL's entry clock: the crystal or PLL2, divided. */
  function Prediv1Clock(t: Tree, hse: nat): nat {
    if t.prediv1src == 0 then Floor(hse, t.prediv1 + 1)
    else Floor(Mul32(Floor(hse, t.prediv2 + 1), Pll2Factor(t.pll2mul)), t.prediv1 + 1)
  }

  datatype Clocks = Clocks(sysclk: nat, hclk: nat, pclk1: nat, pclk2: nat, adcclk: nat)

  /** All clocks: each is the system clock floor-divided by the product of its dividers. */
  function ClocksOf(t: Tree, hse: nat, hsi: nat): Clocks
    requires t.hpre < 16 && t.ppre1 < 16 && t.ppre2 < 16 && t.adcpre < 4
  {
    var s := Sysclk(t, hse, hsi);
    var d, d1, d2 := Divider(t.hpre), Divider(t.ppre1), Divider(t.ppre2);
    Clocks(s, Floor(s, d), Floor(s, Product(d, d1)), Floor(s, Product(d, d2)),
           Floor(s, Product(Product(d, d2), AdcDivider(t.adcpre))))
  }

  /** `q` is `a` divided by `d`, rounded down. */
  predicate Divided(a: nat, d: nat, q: nat) {
    d * q <= a < d * (q + 1)
  }

  /** Each clock is the one it hangs on, divided by its own divider: the bus clock by HPRE, the peripheral clocks
      by PPRE1 and PPRE2, the converter's clock by two, four, six or eight. */
  predicate Tuned(c: Clocks, d: nat, d1: nat, d2: nat, da: nat) {
    && Divided(c.sysclk, d, c.hclk)
    && Divided(c.hclk, d1, c.pclk1)
    && Divided(c.hclk, d2, c.pclk2)
    && Divided(c.pclk2, da, c.adcclk)
  }

  lemma ClocksAreTuned(t: Tree, hse: nat, hsi: nat)
    requires InRange(t)
    ensures Tuned(ClocksOf(t, hse, hsi), Divider16(t.hpre), Divider16(t.ppre1), Divider16(t.ppre2),
                  2 * (t.adcpre + 1))
  {
    var s := Sysclk(t, hse, hsi);
    var d, d1, d2 := Divider(t.hpre), Divider(t.ppre1), Divider(t.ppre2);
    FloorTwice(s, d, d1);
    FloorTwice(s, d, d2);
    FloorTwice(s, Product(d, d2), AdcDivider(t.adcpre));
    DividersListed(t.hpre);
    DividersListed(t.ppre1);
    DividersListed(t.ppre2);
  }

  /** Peripheral clocks never run faster than the bus they hang on. */
  lemma ClocksAreOrdered(t: Tree, hse: nat, hsi: nat)
    requires InRange(t)
    ensures var c := ClocksOf(t, hse, hsi); c.pclk1 <= c.hclk <= c.sysclk && c.adcclk <= c.pclk2 <= c.hclk
  {
    var s := Sysclk(t, hse, hsi);
    var d, d1, d2 := Divider(t.hpre), Divider(t.ppre1), Divider(t.ppre2);
    FloorTwice(s, d, d1);
    FloorTwice(s, d, d2);
    FloorTwice(s, Product(d, d2), AdcDivider(t.adcpre));
    FloorShrinks(s, d);
    FloorShrinks(Floor(s, d), d1);
    FloorShrinks(Floor(s, d), d2);
    FloorShrinks(Floor(s, Product(d, d2)), AdcDivider(t.adcpre));
  }

  lemma FloorShrinks(a: nat, d: nat)
    requires d > 0
    ensures Floor(a, d) <= a
  {
    var q := Floor(a, d);
    ScaleUp(1, d, q);
  }

  // ---- how far the computed frequency is off ---------------------------------------------

  /** What the getter computes on the PLL2 path, without the 32-bit limit. */
  function Pll2Computed(hse: nat, p2: nat, m2: nat, p1: nat, m: nat): nat
    requires p2 > 0 && p1 > 0
  {
    Floor(Floor(hse, p2) * m2, p1) * m
  }

  /** The PLL2 path: with p2, p1 dividers and m2, m factors, the computed frequency is never above
      the exact one, HSE * m2 * m / (p2 * p1), and the error times p1 is below m * (m2 + p1). Both
      sides are multiplied by p2 to stay in whole numbers. */
  lemma Pll2PathError(hse: nat, p2: nat, m2: nat, p1: nat, m: nat)
    requires p2 > 0 && p1 > 0 && m > 0
    ensures var computed := Pll2Computed(hse, p2, m2, p1, m);
            0 <= hse * m2 * m - computed * (p1 * p2) < m * (m2 + p1) * p2
  {
    var a := Floor(hse, p2);
    var r := hse - p2 * a;
    var b := Floor(a * m2, p1);
    var s := a * m2 - p1 * b;
    ErrorTerms(p2, m2, p1, m, a, b, r, s);
    ErrorBound(p2, m2, p1, m, r, s);
  }

  lemma ErrorTerms(p2: int, m2: int, p1: int, m: int, a: int, b: int, r: int, s: int)
    requires a * m2 == p1 * b + s
    ensures (p2 * a + r) * m2 * m - (b * m) * (p1 * p2) == m * (p2 * s + m2 * r)
  {
    assert (p2 * a + r) * m2 == p2 * (a * m2) + m2 * r;
    assert p2 * (p1 * b + s) == p2 * (p1 * b) + p2 * s;
    assert (p2 * (p1 * b) + p2 * s + m2 * r) * m == p2 * (p1 * b) * m + m * (p2 * s + m2 * r);
    assert p2 * (p1 * b) * m == (b * m) * (p1 * p2);
  }

  lemma ErrorBound(p2: nat, m2: nat, p1: nat, m: nat, r: nat, s: nat)
    requires p2 > 0 && p1 > 0 && m > 0 && r < p2 && s < p1
    ensures 0 <= m * (p2 * s + m2 * r) < m * (m2 + p1) * p2
  {
    var small, large := p2 * s + m2 * r, (m2 + p1) * p2;
    SmallerSum(p2, m2, p1, r, s);
    MulAtLeast(large - small, m);
    Spread(m, small, large);
    assert m * (m2 + p1) * p2 == m * large;
  }

  lemma Spread(m: int, small: int, large: int)
    ensures (large - small) * m == m * large - m * small
  {
  }

  lemma SmallerSum(p2: nat, m2: nat, p1: nat, r: nat, s: nat)
    requires r < p2 && s < p1
    ensures 0 <= p2 * s + m2 * r < (m2 + p1) * p2
  {
    ScaleUp(s, p1 - 1, p2);
    ScaleUp(r, p2, m2);
    assert p2 * (p1 - 1) == p1 * p2 - p2;
    assert (m2 + p1) * p2 == m2 * p2 + p1 * p2;
    assert p2 * s >= 0 && m2 * r >= 0;
  }

  /** The system clock without the 32-bit limit. */
  function SysclkUnbounded(t: Tree, hse: nat, hsi: nat): nat {
    if t.sws == 1 then hse
    else if t.sws == 2 then
      var m := PllFactor(t.pllmul);
      if t.pllsrc == 0 then hsi / 2 * m
      else if t.prediv1src == 0 then Floor(hse, t.prediv1 + 1) * m
      else Pll2Computed(hse, t.prediv2 + 1, Pll2Factor(t.pll2mul), t.prediv1 + 1, m)
    else hsi
  }

  /** The oscillator that feeds the PLL, when the PLL drives the system clock, runs at 25 MHz at most. */
  predicate Feeds(t: Tree, hse: nat, hsi: nat, least: nat) {
    t.sws == 2 ==> if t.pllsrc == 0 then least <= hsi <= 25_000_000 else least <= hse <= 25_000_000
  }

  /** With a PLL source up to 25 MHz and every PLL factor the library offers, no product leaves 32 bits. */
  lemma NoOverflow(t: Tree, hse: nat, hsi: nat)
    requires InRange(t) && hse < U32 && hsi < U32 && Feeds(t, hse, hsi, 0)
    requires t.sws == 2 ==> 2 <= t.pllmul <= 7 || t.pllmul == 13
    ensures Sysclk(t, hse, hsi) == SysclkUnbounded(t, hse, hsi) < U32
  {
    var m := PllFactor(t.pllmul);
    if t.sws == 2 && t.pllsrc == 0 {
      FitsIn32(hsi / 2, m, 25_000_000, 9);
    } else if t.sws == 2 && t.prediv1src == 0 {
      FloorShrinks(hse, t.prediv1 + 1);
      FitsIn32(Floor(hse, t.prediv1 + 1), m, 25_000_000, 9);
    } else if t.sws == 2 {
      Pll2Fits(hse, t.prediv2 + 1, Pll2Factor(t.pll2mul), t.prediv1 + 1, m);
    }
  }

  lemma Pll2Fits(hse: nat, p2: nat, m2: nat, p1: nat, m: nat)
    requires hse <= 25_000_000 && p2 > 0 && m2 <= 17 && p1 > 0 && m <= 9
    ensures Mul32(Floor(hse, p2), m2) == Floor(hse, p2) * m2
    ensures Mul32(Floor(Floor(hse, p2) * m2, p1), m) == Floor(Floor(hse, p2) * m2, p1) * m < U32
  {
    var a := Floor(hse, p2);
    FloorShrinks(hse, p2);
    FitsIn32(a, m2, 25_000_000, 17);
    FloorShrinks(a * m2, p1);
    FitsIn32(Floor(a * m2, p1), m, 425_000_000, 9);
  }

  lemma FitsIn32(x: nat, y: nat, a: nat, b: nat)
    requires x <= a && y <= b && a * b < U32
    ensures 0 <= x * y <= a * b && Mul32(x, y) == x * y
  {
    BoundedProduct(x, y, a, b);
    DivModUnique(x * y, U32, 0, x * y);
  }

  lemma BoundedProduct(x: nat, y: nat, a: nat, b: nat)
    requires x <= a && y <= b
    ensures 0 <= x * y <= a * b
  {
    ScaleUp(x, a, y);
    ScaleUp(y, b, a);
  }

  // ---- when the computed frequency is right ----------------------------------------------

  /** The factors that reach the system clock are ones the library offers on this line of devices. */
  predicate LibraryFactors(t: Tree) {
    t.sws == 2 ==>
      && (2 <= t.pllmul <= 7 || t.pllmul == 13)
      && (t.pllsrc != 0 && t.prediv1src != 0 ==> 6 <= t.pll2mul <= 12 || 14 <= t.pll2mul <= 15)
  }

  /** A factor as the getter sees it and as it is; the PLL's counts twice. */
  predicate Pll2Factors(m2: nat, m2': nat) {
    (8 <= m2 <= 16 && m2' == m2) || (m2 == 17 && m2' == 20)
  }

  predicate PllFactors(m: nat, mm: nat) {
    (4 <= m <= 9 && mm == 2 * m) || (m == 6 && mm == 13)
  }

  /** What the exact system clock frequency is a quotient of: the crystal or the internal oscillator times
      the true factors, by the true dividers. The PLL factor counts twice because one is six and a half. */
  function ExactOver(t: Tree, hse: nat, hsi: nat): nat {
    if t.sws == 1 then hse
    else if t.sws == 2 then
      if t.pllsrc == 0 then hsi * TwicePllFactor(t.pllmul)
      else if t.prediv1src == 0 then hse * TwicePllFactor(t.pllmul)
      else hse * TruePll2Factor(t.pll2mul) * TwicePllFactor(t.pllmul)
    else hsi
  }

  function ExactUnder(t: Tree): (d: nat)
    ensures d > 0
  {
    if t.sws != 2 then 1
    else if t.pllsrc == 0 then 4
    else if t.prediv1src == 0 then 2 * (t.prediv1 + 1)
    else Product(2, Product(t.prediv1 + 1, t.prediv2 + 1))
  }

  /** What the floors may cost, times the last divider: nothing that a factor does not multiply. */
  function Cost(t: Tree): nat {
    if t.sws != 2 then 1
    else if t.pllsrc == 0 || t.prediv1src == 0 then PllFactor(t.pllmul)
    else PllFactor(t.pllmul) * (Pll2Factor(t.pll2mul) + (t.prediv1 + 1))
  }

  function LastDivider(t: Tree): (d: nat)
    ensures d > 0
  {
    if t.sws == 2 && t.pllsrc != 0 && t.prediv1src != 0 then t.prediv1 + 1 else 1
  }

  /** The frequency the getter reports is never above the exact one and off by less than the floors cost. */
  ghost predicate Accurate(t: Tree, hse: nat, hsi: nat, reported: nat) {
    Near(ExactOver(t, hse, hsi), ExactUnder(t), reported, LastDivider(t), Cost(t))
  }

  /** `reported` is at most the quotient, and the error times `k` is below `cost`. */
  ghost predicate Near(over: nat, under: nat, reported: nat, k: nat, cost: nat)
    requires under > 0
  {
    var exact := over as real / under as real;
    0.0 <= exact - reported as real && (exact - reported as real) * k as real < cost as real
  }

  /** The PLL runs on factors the getter knows: not 6.5, and not 20 when the second PLL feeds it. */
  predicate KnownFactors(t: Tree) {
    t.sws == 2 ==> t.pllmul != 13 && (t.pllsrc == 0 || t.prediv1src == 0 || t.pll2mul != 15)
  }

  lemma Scaled(x: real, y: real, d: real)
    requires d > 0.0
    ensures x < y <==> x * d < y * d
    ensures x <= y <==> x * d <= y * d
  {
    if x < y {
      assert (y - x) * d > 0.0;
    } else {
      assert (x - y) * d >= 0.0;
    }
  }

  /** The same in whole numbers. */
  lemma InWholeNumbers(over: nat, under: nat, s: nat, k: nat, cost: nat)
    requires under > 0
    ensures Near(over, under, s, k, cost) <==> s * under <= over && (over - s * under) * k < cost * under
  {
    var d := under as real;
    var e := over as real / d;
    assert e * d == over as real;
    Scaled(s as real, e, d);
    assert s as real * d == (s * under) as real;
    Scaled((e - s as real) * k as real, cost as real, d);
    assert (e - s as real) * k as real * d == (e * d - s as real * d) * k as real;
    assert (e * d - s as real * d) * k as real == ((over - s * under) * k) as real;
    assert cost as real * d == (cost * under) as real;
  }

  /** The PLL2 path: near the exact quotient exactly when both factors are the true ones. */
  lemma Pll2Accurate(hse: nat, p2: nat, m2: nat, p1: nat, m: nat, m2': nat, mm: nat)
    requires 1000 <= hse && 0 < p2 <= 16 && 0 < p1 <= 16 && Pll2Factors(m2, m2') && PllFactors(m, mm)
    ensures Near(hse * m2' * mm, Product(2, Product(p1, p2)), Pll2Computed(hse, p2, m2, p1, m), p1, m * (m2 + p1))
            <==> m2' == m2 && mm == 2 * m
  {
    Pll2PathError(hse, p2, m2, p1, m);
    Pll2Near(hse, p2, m2, p1, m, m2', mm, Pll2Computed(hse, p2, m2, p1, m));
  }

  lemma Pll2Near(hse: nat, p2: nat, m2: nat, p1: nat, m: nat, m2': nat, mm: nat, s: nat)
    requires 1000 <= hse && 0 < p2 <= 16 && 0 < p1 <= 16 && Pll2Factors(m2, m2') && PllFactors(m, mm)
    requires 0 <= hse * m2 * m - s * (p1 * p2) < m * (m2 + p1) * p2
    ensures Near(hse * m2' * mm, Product(2, Product(p1, p2)), s, p1, m * (m2 + p1)) <==> m2' == m2 && mm == 2 * m
  {
    Excess(hse, m2, m, m2', mm, p1, p2);
    Rearranged(hse, m2, m, m2', mm, s, p1 * p2);
    var error, excess := hse * m2 * m - s * (p1 * p2), hse * (m2' * mm - 2 * (m2 * m));
    NearFromError(hse * m2' * mm, s, p1, p2, m * (m2 + p1), error, excess);
  }

  lemma NearFromError(over: nat, s: nat, p1: nat, p2: nat, cost: nat, error: int, excess: int)
    requires p1 > 0 && p2 > 0 && over - s * (2 * (p1 * p2)) == 2 * error + excess
    requires 0 <= error < cost * p2 && (excess == 0 || excess >= 2 * (cost * p2))
    ensures Near(over, Product(2, Product(p1, p2)), s, p1, cost) <==> excess == 0
  {
    InWholeNumbers(over, Product(2, Product(p1, p2)), s, p1, cost);
    CancelLast(2 * error + excess, 2 * (cost * p2), p1);
    Regrouped(cost, p1, p2);
  }

  lemma Rearranged(hse: int, m2: int, m: int, m2': int, mm: int, s: int, p: int)
    ensures hse * m2' * mm - s * (2 * p) == 2 * (hse * m2 * m - s * p) + hse * (m2' * mm - 2 * (m2 * m))
  {
    assert hse * m2' * mm == hse * (m2' * mm) && hse * m2 * m == hse * (m2 * m);
    assert s * (2 * p) == 2 * (s * p);
    assert hse * (m2' * mm - 2 * (m2 * m)) == hse * (m2' * mm) - 2 * (hse * (m2 * m));
  }

  lemma Regrouped(a: int, p1: int, p2: int)
    ensures 2 * (a * p2) * p1 == a * (2 * (p1 * p2))
  {
  }

  lemma CancelLast(x: int, y: int, k: int)
    requires k > 0
    ensures x < y <==> x * k < y * k
  {
    if x < y {
      assert (y - x) * k > 0;
    } else {
      assert (x - y) * k >= 0;
    }
  }

  /** A factor taken too small costs more than the floors ever do. */
  lemma Excess(hse: nat, m2: nat, m: nat, m2': nat, mm: nat, p1: nat, p2: nat)
    requires 1000 <= hse && 0 < p2 <= 16 && 0 < p1 <= 16
    requires Pll2Factors(m2, m2')
    requires PllFactors(m, mm)
    ensures var excess := hse * (m2' * mm - 2 * (m2 * m));
            if m2' == m2 && mm == 2 * m then excess == 0 else excess >= 2 * (m * (m2 + p1) * p2)
  {
    if mm == 13 {
      ExcessAtSixAndAHalf(hse, m2, m2', p1, p2);
    } else if m2' == m2 {
      assert m2 * (2 * m) == 2 * (m2 * m);
      assert hse * 0 == 0;
    } else {
      ExcessAtTwenty(hse, m, p1, p2);
    }
  }

  lemma CostBound(a: nat, c: nat, p1: nat, p2: nat)
    requires p1 <= 16 && p2 <= 16
    ensures a * (c + p1) * p2 <= 16 * (a * (c + 16))
  {
    ScaleUp(c + p1, c + 16, a);
    BoundedProduct(a * (c + p1), p2, a * (c + 16), 16);
  }

  lemma ExcessAtSixAndAHalf(hse: nat, m2: nat, m2': nat, p1: nat, p2: nat)
    requires 1000 <= hse && p1 <= 16 && p2 <= 16 && Pll2Factors(m2, m2')
    ensures hse * (m2' * 13 - 2 * (m2 * 6)) >= 2 * (6 * (m2 + p1) * p2)
  {
    CostBound(6, m2, p1, p2);
    ScaleUp(1000, hse, m2' * 13 - 2 * (m2 * 6));
  }

  lemma ExcessAtTwenty(hse: nat, m: nat, p1: nat, p2: nat)
    requires 1000 <= hse && p1 <= 16 && p2 <= 16 && m >= 4
    ensures hse * (20 * (2 * m) - 2 * (17 * m)) >= 2 * (m * (17 + p1) * p2)
  {
    CostBound(m, 17, p1, p2);
    ScaleUp(1000, hse, 6 * m);
  }

  /** One floor only: the crystal or the halved internal oscillator. */
  lemma OneFloorAccurate(source: nat, p: nat, m: nat, mm: nat)
    requires 1000 <= source && 0 < p <= 16
    requires PllFactors(m, mm)
    ensures var s := Floor(source, p) * m;
            && s * (2 * p) <= source * mm
            && (source * mm - s * (2 * p) < m * (2 * p) <==> mm == 2 * m)
  {
    var q := Floor(source, p);
    var r := source - p * q;
    OneFloorTerms(p, q, r, m, mm);
    ScaleUp(r, p - 1, m);
    ScaleUp(0, r, m);
    assert m * (p - 1) == m * p - m && m * (2 * p) == 2 * (m * p);
    if mm == 13 {
      ScaleUp(p, 16, m);
    }
  }

  lemma OneFloorTerms(p: int, q: int, r: int, m: int, mm: int)
    requires mm == 2 * m || mm == 2 * m + 1
    ensures (p * q + r) * mm - q * m * (2 * p) == 2 * (m * r) + if mm == 2 * m then 0 else p * q + r
  {
    var source := p * q + r;
    assert source * (2 * m) == 2 * (m * (p * q)) + 2 * (m * r);
    assert q * m * (2 * p) == 2 * (m * (p * q));
  }

  /** What RCC_GetClocksFreq reports as the system clock is accurate exactly when the PLL, if it drives the
      system clock, runs on factors the getter knows. */
  lemma SysclkAccurate(t: Tree, hse: nat, hsi: nat)
    requires InRange(t) && LibraryFactors(t)
    requires hse < U32 && hsi < U32 && Feeds(t, hse, hsi, 1000)
    ensures Accurate(t, hse, hsi, ClocksOf(t, hse, hsi).sysclk) <==> KnownFactors(t)
  {
    NoOverflow(t, hse, hsi);
    if t.sws == 2 && t.pllsrc != 0 && t.prediv1src != 0 {
      Pll2SysclkAccurate(t, hse, hsi);
    } else if t.sws == 2 {
      PllSysclkAccurate(t, hse, hsi);
    } else {
      InWholeNumbers(ExactOver(t, hse, hsi), 1, Sysclk(t, hse, hsi), 1, 1);
    }
  }

  /** Out of reset, with every field zero, the report is accurate. With the PLL at 6.5 on the crystal and PLL2
      never configured it is not. */
  lemma SixAndAHalfIsOff(hse: nat, hsi: nat)
    requires 1000 <= hse <= 25_000_000 && hsi < U32
    ensures var reset := Tree(0, 0, 0, 0, 0, 0, 0, 0, 0, 0, 0, 0);
            Accurate(reset, hse, hsi, ClocksOf(reset, hse, hsi).sysclk)
    ensures var t := Tree(2, 2, 0, 0, 0, 0, 1, 13, 0, 0, 0, 0);
            !Accurate(t, hse, hsi, ClocksOf(t, hse, hsi).sysclk)
  {
    SysclkAccurate(Tree(0, 0, 0, 0, 0, 0, 0, 0, 0, 0, 0, 0), hse, hsi);
    SysclkAccurate(Tree(2, 2, 0, 0, 0, 0, 1, 13, 0, 0, 0, 0), hse, hsi);
  }

  lemma PllSysclkAccurate(t: Tree, hse: nat, hsi: nat)
    requires InRange(t) && LibraryFactors(t) && Feeds(t, hse, hsi, 1000)
    requires t.sws == 2 && (t.pllsrc == 0 || t.prediv1src == 0)
    ensures Accurate(t, hse, hsi, SysclkUnbounded(t, hse, hsi)) <==> t.pllmul != 13
  {
    var m, mm := PllFactor(t.pllmul), TwicePllFactor(t.pllmul);
    InWholeNumbers(ExactOver(t, hse, hsi), ExactUnder(t), SysclkUnbounded(t, hse, hsi), 1, m);
    if t.pllsrc == 0 {
      FloorUnique(hsi, 2, hsi / 2);
      OneFloorAccurate(hsi, 2, m, mm);
    } else {
      OneFloorAccurate(hse, t.prediv1 + 1, m, mm);
    }
  }

  lemma Pll2SysclkAccurate(t: Tree, hse: nat, hsi: nat)
    requires InRange(t) && LibraryFactors(t) && 1000 <= hse
    requires t.sws == 2 && t.pllsrc != 0 && t.prediv1src != 0
    ensures Accurate(t, hse, hsi, SysclkUnbounded(t, hse, hsi)) <==> t.pllmul != 13 && t.pll2mul != 15
  {
    var p2, p1 := t.prediv2 + 1, t.prediv1 + 1;
    var m2, m2' := Pll2Factor(t.pll2mul), TruePll2Factor(t.pll2mul);
    var m, mm := PllFactor(t.pllmul), TwicePllFactor(t.pllmul);
    Pll2Accurate(hse, p2, m2, p1, m, m2', mm);
  }

  // ---- the driver ------------------------------------------------------------------------

  datatype Command =
    | Hclk(code: nat)
    | Pclk1(code: nat)
    | Pclk2(code: nat)
    | AdcClk(code: nat)
    | Source(code: nat)
    | Pll(source: nat, mul: nat)
    | Prediv1(source: nat, div: nat)
    | Prediv2(div: nat)
    | Pll2(mul: nat)
    | Switch

  /** The parameter values the library defines, as multiples of their field's place value. */
  predicate Legal(c: Command) {
    match c
    case Hclk(code) => code % 0x10 == 0 && (code == 0 || 8 <= code / 0x10 < 16)
    case Pclk1(code) => code % 0x100 == 0 && (code == 0 || 4 <= code / 0x100 < 8)
    case Pclk2(code) => code % 0x100 == 0 && (code == 0 || 4 <= code / 0x100 < 8)
    case AdcClk(code) => code % 0x4000 == 0 && code / 0x4000 < 4
    case Source(code) => code < 3
    case Pll(source, mul) =>
      source % 0x10000 == 0 && source / 0x10000 < 2 && mul % 0x40000 == 0
      && (2 <= mul / 0x40000 <= 7 || mul / 0x40000 == 13)
    case Prediv1(source, div) => source % 0x10000 == 0 && source / 0x10000 < 2 && div < 16
    case Prediv2(div) => div % 0x10 == 0 && div / 0x10 < 16
    case Pll2(mul) => mul % 0x100 == 0 && (6 <= mul / 0x100 <= 12 || 14 <= mul / 0x100 <= 15)
    case Switch => true
  }

  /** One call as an update of the clock tree. The controller's own step lets the status follow the
      switch. */
  function Step(t: Tree, c: Command): Tree {
    match c
    case Hclk(code) => t.(hpre := code / 0x10)
    case Pclk1(code) => t.(ppre1 := code / 0x100)
    case Pclk2(code) => t.(ppre2 := code / 0x100)
    case AdcClk(code) => t.(adcpre := code / 0x4000)
    case Source(code) => t.(sw := code)
    case Pll(source, mul) => t.(pllsrc := source / 0x10000, pllmul := mul / 0x40000)
    case Prediv1(source, div) => t.(prediv1src := source / 0x10000, prediv1 := div)
    case Prediv2(div) => t.(prediv2 := div / 0x10)
    case Pll2(mul) => t.(pll2mul := mul / 0x100)
    case Switch => t.(sws := t.sw)
  }

  const CFGR_SW_MASK: Word := Not(Mask(0, 2))
  const CFGR_HPRE_RESET_MASK: Word := Not(Mask(4, 4))
  const CFGR_PPRE1_RESET_MASK: Word := Not(Mask(8, 3))
  const CFGR_PPRE2_RESET_MASK: Word := Not(Mask(11, 3))
  const CFGR_ADCPRE_RESET_MASK: Word := Not(Mask(14, 2))
  const CFGR_PLL_MASK: Word := Not(Or(Mask(16, 1), Mask(18, 4)))
  const CFGR2_PREDIV1: Word := Mask(0, 4)
  const CFGR2_PREDIV1SRC: Word := Mask(16, 1)
  const CFGR2_PREDIV2: Word := Mask(4, 4)
  const CFGR2_PLL2MUL: Word := Mask(8, 4)

  lemma MasksAreTheDrivers()
    ensures Value(CFGR_SW_MASK) == 0xFFFF_FFFC && Value(CFGR_HPRE_RESET_MASK) == 0xFFFF_FF0F
    ensures Value(CFGR_PPRE1_RESET_MASK) == 0xFFFF_F8FF && Value(CFGR_PPRE2_RESET_MASK) == 0xFFFF_C7FF
    ensures Value(CFGR_ADCPRE_RESET_MASK) == 0xFFFF_3FFF
  {
    SmallPowers();
    ClearMaskValue(0, 2);
    ClearMaskValue(4, 4);
    ClearMaskValue(8, 3);
    ClearMaskValue(11, 3);
    ClearMaskValue(14, 2);
  }

  lemma PllMaskIsTheDrivers()
    ensures Value(CFGR_PLL_MASK) == 0xFFC2_FFFF
  {
    PllFieldMasks();
    ClearMaskValue2(16, 1, 18, 4);
  }

  lemma PllFieldMasks()
    ensures Value(Mask(16, 1)) == 0x1_0000 && Value(Mask(18, 4)) == 0x3C_0000
  {
    SmallPowers();
    LargePowers();
    MaskValue(16, 1);
    MaskValue(18, 4);
  }

  /** Setting a field from a code in position leaves every other field's number. */
  lemma FieldSet(w: Word, code: nat, x: nat, pos: nat, width: nat, place: nat, bound: nat)
    requires pos + width <= 32 && place == Pow2(pos) && bound == Pow2(width) && code == place * x && x < bound
    ensures Or(And(w, Not(Mask(pos, width))), Of(code)) == Splice(w, pos, Bits(x, width))
    ensures F(Splice(w, pos, Bits(x, width)), pos, width) == x
    ensures forall q: nat, k: nat :: q + k <= 32 && (q + k <= pos || pos + width <= q) ==>
      F(Splice(w, pos, Bits(x, width)), q, k) == F(w, q, k)
  {
    SetField(w, code, x, pos, width);
    OthersKept(w, pos, Bits(x, width));
  }

  /** Two fields set by one write. */
  lemma TwoFieldsSet(w: Word, a: nat, x: nat, pos: nat, width: nat, place: nat, bound: nat,
                     b: nat, y: nat, pos2: nat, width2: nat, place2: nat, bound2: nat)
    requires pos + width <= pos2 && pos2 + width2 <= 32
    requires place == Pow2(pos) && bound == Pow2(width) && a == place * x && x < bound
    requires place2 == Pow2(pos2) && bound2 == Pow2(width2) && b == place2 * y && y < bound2
    ensures Or(And(w, Not(Or(Mask(pos, width), Mask(pos2, width2)))), Or(Of(a), Of(b))) ==
            Splice(Splice(w, pos, Bits(x, width)), pos2, Bits(y, width2))
    ensures var w' := Splice(Splice(w, pos, Bits(x, width)), pos2, Bits(y, width2));
            && F(w', pos, width) == x && F(w', pos2, width2) == y
            && forall q: nat, k: nat ::
                 q + k <= 32 && (q + k <= pos || (pos + width <= q && q + k <= pos2) || pos2 + width2 <= q) ==>
                 F(w', q, k) == F(w, q, k)
  {
    ScalePlaces(a, x, pos, width);
    ScalePlaces(b, y, pos2, width2);
    ClearAndSet2(w, pos, Bits(x, width), pos2, Bits(y, width2));
    var mid := Splice(w, pos, Bits(x, width));
    FieldOfSplice(w, pos, Bits(x, width), pos, width);
    FieldValue(x, width);
    FieldOfSplice(mid, pos2, Bits(y, width2), pos2, width2);
    FieldValue(y, width2);
    OthersKept(w, pos, Bits(x, width));
    OthersKept(mid, pos2, Bits(y, width2));
  }

  class Clock {
    var CFGR: Word
    var CFGR2: Word

    ghost function Fields(): Tree
      reads this
    {
      TreeOf(CFGR, CFGR2)
    }

    ghost function Registers(): Regs
      reads this
    {
      Regs(CFGR, CFGR2)
    }

    method HCLKConfig(code: nat)
      requires Legal(Hclk(code))
      modifies this`CFGR
      ensures Fields() == Step(old(Fields()), Hclk(code))
      ensures CFGR == Splice(old(CFGR), 4, Bits(code / 0x10, 4))
    {
      var tmpreg := CFGR;
      tmpreg := And(tmpreg, CFGR_HPRE_RESET_MASK);
      tmpreg := Or(tmpreg, Of(code));
      CFGR := tmpreg;
      FieldSet(old(CFGR), code, code / 0x10, 4, 4, 0x10, 16);
    }

    method PCLK1Config(code: nat)
      requires Legal(Pclk1(code))
      modifies this`CFGR
      ensures Fields() == Step(old(Fields()), Pclk1(code))
      ensures CFGR == Splice(old(CFGR), 8, Bits(code / 0x100, 3))
    {
      var tmpreg := CFGR;
      tmpreg := And(tmpreg, CFGR_PPRE1_RESET_MASK);
      tmpreg := Or(tmpreg, Of(code));
      CFGR := tmpreg;
      FieldSet(old(CFGR), code, code / 0x100, 8, 3, 0x100, 8);
    }

    /** The APB2 code is the APB1 code shifted into the next field. */
    method PCLK2Config(code: nat)
      requires Legal(Pclk2(code))
      modifies this`CFGR
      ensures Fields() == Step(old(Fields()), Pclk2(code))
      ensures CFGR == Splice(old(CFGR), 11, Bits(code / 0x100, 3))
    {
      var tmpreg := CFGR;
      tmpreg := And(tmpreg, CFGR_PPRE2_RESET_MASK);
      tmpreg := Or(tmpreg, Shl(Of(code), 3));
      CFGR := tmpreg;
      ShiftedCode(code, code / 0x100);
      FieldSet(old(CFGR), code * 8, code / 0x100, 11, 3, 0x800, 8);
    }

    method ADCCLKConfig(code: nat)
      requires Legal(AdcClk(code))
      modifies this`CFGR
      ensures Fields() == Step(old(Fields()), AdcClk(code))
      ensures CFGR == Splice(old(CFGR), 14, Bits(code / 0x4000, 2))
    {
      var tmpreg := CFGR;
      tmpreg := And(tmpreg, CFGR_ADCPRE_RESET_MASK);
      tmpreg := Or(tmpreg, Of(code));
      CFGR := tmpreg;
      FieldSet(old(CFGR), code, code / 0x4000, 14, 2, 0x4000, 4);
    }

    method SYSCLKConfig(code: nat)
      requires Legal(Source(code))
      modifies this`CFGR
      ensures Fields() == Step(old(Fields()), Source(code))
      ensures CFGR == Splice(old(CFGR), 0, Bits(code, 2))
    {
      var tmpreg := CFGR;
      tmpreg := And(tmpreg, CFGR_SW_MASK);
      tmpreg := Or(tmpreg, Of(code));
      CFGR := tmpreg;
      FieldSet(old(CFGR), code, code, 0, 2, 1, 4);
    }

    method PLLConfig(source: nat, mul: nat)
      requires Legal(Pll(source, mul))
      modifies this`CFGR
      ensures Fields() == Step(old(Fields()), Pll(source, mul))
      ensures CFGR == Splice(Splice(old(CFGR), 16, Bits(source / 0x10000, 1)), 18, Bits(mul / 0x40000, 4))
    {
      var tmpreg := CFGR;
      tmpreg := And(tmpreg, CFGR_PLL_MASK);
      tmpreg := Or(tmpreg, Or(Of(source), Of(mul)));
      CFGR := tmpreg;
      assert Pow2(16) == 0x1_0000 && Pow2(18) == 0x4_0000 by {
        SmallPowers();
        LargePowers();
      }
      TwoFieldsSet(old(CFGR), source, source / 0x10000, 16, 1, 0x10000, 2, mul, mul / 0x40000, 18, 4, 0x40000, 16);
    }

    method PREDIV1Config(source: nat, div: nat)
      requires Legal(Prediv1(source, div))
      modifies this`CFGR2
      ensures Fields() == Step(old(Fields()), Prediv1(source, div))
      ensures CFGR2 == Splice(Splice(old(CFGR2), 0, Bits(div, 4)), 16, Bits(source / 0x10000, 1))
    {
      var tmpreg := CFGR2;
      tmpreg := And(tmpreg, Not(Or(CFGR2_PREDIV1, CFGR2_PREDIV1SRC)));
      tmpreg := Or(tmpreg, Or(Of(source), Of(div)));
      CFGR2 := tmpreg;
      assert Or(Of(source), Of(div)) == Or(Of(div), Of(source));
      assert Pow2(16) == 0x1_0000 by {
        SmallPowers();
      }
      TwoFieldsSet(old(CFGR2), div, div, 0, 4, 1, 16, source, source / 0x10000, 16, 1, 0x10000, 2);
    }

    method PREDIV2Config(div: nat)
      requires Legal(Prediv2(div))
      modifies this`CFGR2
      ensures Fields() == Step(old(Fields()), Prediv2(div))
      ensures CFGR2 == Splice(old(CFGR2), 4, Bits(div / 0x10, 4))
    {
      var tmpreg := CFGR2;
      tmpreg := And(tmpreg, Not(CFGR2_PREDIV2));
      tmpreg := Or(tmpreg, Of(div));
      CFGR2 := tmpreg;
      FieldSet(old(CFGR2), div, div / 0x10, 4, 4, 0x10, 16);
    }

    method PLL2Config(mul: nat)
      requires Legal(Pll2(mul))
      modifies this`CFGR2
      ensures Fields() == Step(old(Fields()), Pll2(mul))
      ensures CFGR2 == Splice(old(CFGR2), 8, Bits(mul / 0x100, 4))
    {
      var tmpreg := CFGR2;
      tmpreg := And(tmpreg, Not(CFGR2_PLL2MUL));
      tmpreg := Or(tmpreg, Of(mul));
      CFGR2 := tmpreg;
      FieldSet(old(CFGR2), mul, mul / 0x100, 8, 4, 0x100, 16);
    }

    /** The hardware's step: the status field follows the switch field. */
    method SwitchDone()
      modifies this`CFGR
      ensures Fields() == Step(old(Fields()), Switch)
    {
      var sw := Field(CFGR, 0, 2);
      CFGR := Splice(CFGR, 2, sw);
      FieldOfSplice(old(CFGR), 2, sw, 2, 2);
      OthersKept(old(CFGR), 2, sw);
    }

    /** RCC_GetClocksFreq. */
    method GetClocksFreq(hse: nat, hsi: nat) returns (clocks: Clocks)
      requires hse < U32 && hsi < U32
      ensures InRange(Fields()) && clocks == ClocksOf(Fields(), hse, hsi)
      ensures Tuned(clocks, Divider16(F(CFGR, 4, 4)), Divider16(F(CFGR, 8, 3)), Divider16(F(CFGR, 11, 3)),
                    2 * (F(CFGR, 14, 2) + 1))
      ensures F(CFGR, 2, 2) != 2 ==> clocks.sysclk == if F(CFGR, 2, 2) == 1 then hse else hsi
      ensures LibraryFactors(Fields()) && Feeds(Fields(), hse, hsi, 1000) ==>
        (Accurate(Fields(), hse, hsi, clocks.sysclk) <==> KnownFactors(Fields()))
    {
      clocks := ComputeClocks(hse, hsi);
      ClocksAreTuned(Fields(), hse, hsi);
      if LibraryFactors(Fields()) && Feeds(Fields(), hse, hsi, 1000) {
        SysclkAccurate(Fields(), hse, hsi);
      }
    }

    /** Its computation: the switch, and the four prescalers. */
    method ComputeClocks(hse: nat, hsi: nat) returns (clocks: Clocks)
      ensures InRange(Fields()) && clocks == ClocksOf(Fields(), hse, hsi)
    {
      TreeInRange(CFGR, CFGR2);
      var s := GetSysclk(hse, hsi);
      var hpre := ReadField(4, 4);
      var h := High(s, PrescalerShift(hpre));
      ShiftIsFloor(s, PrescalerShift(hpre));
      var ppre1 := ReadField(8, 3);
      var p1 := High(h, PrescalerShift(ppre1));
      ShiftIsFloor(h, PrescalerShift(ppre1));
      FloorTwice(s, Divider(hpre), Divider(ppre1));
      var ppre2 := ReadField(11, 3);
      var p2 := High(h, PrescalerShift(ppre2));
      ShiftIsFloor(h, PrescalerShift(ppre2));
      FloorTwice(s, Divider(hpre), Divider(ppre2));
      var adcpre := ReadField(14, 2);
      FloorTwice(s, Product(Divider(hpre), Divider(ppre2)), AdcDivider(adcpre));
      clocks := Clocks(s, h, p1, p2, Floor(p2, AdcDivider(adcpre)));
    }

    /** `(CFGR & mask) >> pos`. */
    method ReadField(pos: nat, width: nat) returns (v: nat)
      requires pos + width <= 32
      ensures v == F(CFGR, pos, width)
    {
      v := Value(Shr(And(CFGR, Mask(pos, width)), pos));
      ShiftAndMask(CFGR, pos, width);
    }

    /** The switch over the clock source. */
    method GetSysclk(hse: nat, hsi: nat) returns (s: nat)
      requires InRange(Fields())
      ensures s == Sysclk(Fields(), hse, hsi)
    {
      var tmp := Value(And(CFGR, Mask(2, 2)));
      FieldInPlaceIs(CFGR, 2, 2, 4);
      if tmp == 0x00 {
        s := hsi;
      } else if tmp == 0x04 {
        s := hse;
      } else if tmp == 0x08 {
        s := GetPllClock(hse, hsi);
      } else {
        s := hsi;
      }
    }

    method GetPllClock(hse: nat, hsi: nat) returns (s: nat)
      requires InRange(Fields()) && Fields().sws == 2
      ensures s == Sysclk(Fields(), hse, hsi)
    {
      var pllmull := GetPllFactor();
      var pllsource := Value(And(CFGR, Mask(16, 1)));
      FieldInPlaceIs(CFGR, 16, 1, Pow2(16));
      if pllsource == 0 {
        s := Mul32(hsi / 2, pllmull);
      } else {
        var entry := GetPrediv1Clock(hse);
        s := Mul32(entry, pllmull);
      }
    }

    method GetPllFactor() returns (pllmull: nat)
      ensures pllmull == PllFactor(Fields().pllmul)
    {
      pllmull := ReadField(18, 4);
      if pllmull != 0x0D {
        pllmull := pllmull + 2;
      } else {
        pllmull := 13 / 2;
      }
    }

    method GetPrediv1Clock(hse: nat) returns (entry: nat)
      ensures entry == Prediv1Clock(Fields(), hse)
    {
      var prediv1source, prediv1factor := GetPrediv1();
      if prediv1source == 0 {
        entry := Floor(hse, prediv1factor);
      } else {
        var prediv2factor, pll2mull := GetPll2();
        entry := Floor(Mul32(Floor(hse, prediv2factor), pll2mull), prediv1factor);
      }
    }

    method GetPrediv1() returns (prediv1source: nat, prediv1factor: nat)
      ensures (prediv1source == 0 <==> Fields().prediv1src == 0) && prediv1factor == Fields().prediv1 + 1
    {
      prediv1source := Value(And(CFGR2, CFGR2_PREDIV1SRC));
      FieldInPlaceIs(CFGR2, 16, 1, Pow2(16));
      prediv1factor := Value(And(CFGR2, CFGR2_PREDIV1)) + 1;
      FieldInPlaceIs(CFGR2, 0, 4, 1);
    }

    method GetPll2() returns (prediv2factor: nat, pll2mull: nat)
      ensures prediv2factor == Fields().prediv2 + 1 && pll2mull == Pll2Factor(Fields().pll2mul)
    {
      prediv2factor := Value(Shr(And(CFGR2, CFGR2_PREDIV2), 4)) + 1;
      ShiftAndMask(CFGR2, 4, 4);
      pll2mull := Value(Shr(And(CFGR2, CFGR2_PLL2MUL), 8)) + 2;
      ShiftAndMask(CFGR2, 8, 4);
    }

    /** Any run of configuration calls, and then the getter. */
    method Run(cs: seq<Command>, hse: nat, hsi: nat) returns (clocks: Clocks)
      requires hse < U32 && hsi < U32 && forall c :: c in cs ==> Legal(c)
      modifies this
      ensures Fields() == After(old(Fields()), cs)
      ensures InRange(Fields()) && clocks == ClocksOf(After(old(Fields()), cs), hse, hsi)
      ensures var t := old(Fields());
              Tuned(clocks, LastHclk(cs, Divider16(t.hpre)), LastPclk1(cs, Divider16(t.ppre1)),
                    LastPclk2(cs, Divider16(t.ppre2)), LastAdc(cs, 2 * (t.adcpre + 1)))
    {
      TreeInRange(CFGR, CFGR2);
      LastDividersApply(Fields(), cs);
      for i := 0 to |cs|
        invariant Fields() == After(old(Fields()), cs[..i])
      {
        assert cs[..i + 1][..i] == cs[..i];
        Call(cs[i]);
      }
      assert cs[..|cs|] == cs;
      clocks := GetClocksFreq(hse, hsi);
    }

    /** The set-up of system_stm32f10x.c on a 25 MHz crystal, by the library's setters. */
    method SetTo72MHz(hsi: nat) returns (clocks: Clocks)
      requires hsi < U32
      modifies this
      ensures clocks.sysclk == 72_000_000 && clocks.hclk == 72_000_000
      ensures clocks.pclk1 == 36_000_000 && clocks.pclk2 == 72_000_000
    {
      ghost var t := Fields();
      var cs := [Hclk(0), Pclk2(0), Pclk1(0x400)] + BothPlls(5, 6, 5, 7);
      TreeInRange(CFGR, CFGR2);
      clocks := Run(cs, 25_000_000, hsi);
      At72(t, cs, hsi);
    }

    method Call(c: Command)
      requires Legal(c)
      modifies this
      ensures Fields() == Step(old(Fields()), c)
      ensures !c.Switch? ==> Registers() == Written(old(Registers()), c)
    {
      if c.Prediv1? || c.Prediv2? || c.Pll2? {
        CallOnCfgr2(c);
      } else if c.Switch? {
        SwitchDone();
      } else {
        CallOnCfgr(c);
      }
    }

    method CallOnCfgr2(c: Command)
      requires Legal(c) && (c.Prediv1? || c.Prediv2? || c.Pll2?)
      modifies this
      ensures Fields() == Step(old(Fields()), c) && Registers() == Written(old(Registers()), c)
    {
      match c {
        case Prediv1(source, div) => PREDIV1Config(source, div);
        case Prediv2(div) => PREDIV2Config(div);
        case Pll2(mul) => PLL2Config(mul);
      }
      NoSecondField(CFGR2);
    }

    method CallOnCfgr(c: Command)
      requires Legal(c) && !(c.Prediv1? || c.Prediv2? || c.Pll2? || c.Switch?)
      modifies this
      ensures Fields() == Step(old(Fields()), c) && Registers() == Written(old(Registers()), c)
    {
      match c {
        case Hclk(code) => HCLKConfig(code);
        case Pclk1(code) => PCLK1Config(code);
        case Pclk2(code) => PCLK2Config(code);
        case AdcClk(code) => ADCCLKConfig(code);
        case Source(code) => SYSCLKConfig(code);
        case Pll(source, mul) => PLLConfig(source, mul);
      }
      NoSecondField(CFGR);
    }
  }

  lemma NoSecondField(w: Word)
    ensures Splice(w, 32, []) == w
  {
  }

  lemma ShiftedCode(code: nat, x: nat)
    requires code == 0x100 * x && x < 8
    ensures Shl(Of(code), 3) == Of(code * 8)
  {
    SmallPowers();
    ScalePlaces(code, x, 8, 3);
    ScalePlaces(code * 8, x, 11, 3);
  }

  lemma FieldInPlaceIs(w: Word, pos: nat, width: nat, place: nat)
    requires pos + width <= 32 && place == Pow2(pos)
    ensures Value(And(w, Mask(pos, width))) == place * F(w, pos, width)
    ensures Value(And(w, Mask(pos, width))) == 0 <==> F(w, pos, width) == 0
  {
    FieldInPlace(w, pos, width);
    MulAtLeast(F(w, pos, width), place);
  }

  // ---- runs ------------------------------------------------------------------------------

  ghost function After(t: Tree, cs: seq<Command>): Tree {
    if cs == [] then t else Step(After(t, cs[..|cs| - 1]), cs[|cs| - 1])
  }

  /** The last AHB, APB1, APB2 and ADC divider chosen in a run. */
  ghost function LastHclk(cs: seq<Command>, before: nat): nat {
    if cs == [] then before
    else if cs[|cs| - 1].Hclk? then Divider16(cs[|cs| - 1].code / 0x10) else LastHclk(cs[..|cs| - 1], before)
  }

  ghost function LastPclk1(cs: seq<Command>, before: nat): nat {
    if cs == [] then before
    else if cs[|cs| - 1].Pclk1? then Divider16(cs[|cs| - 1].code / 0x100) else LastPclk1(cs[..|cs| - 1], before)
  }

  ghost function LastPclk2(cs: seq<Command>, before: nat): nat {
    if cs == [] then before
    else if cs[|cs| - 1].Pclk2? then Divider16(cs[|cs| - 1].code / 0x100) else LastPclk2(cs[..|cs| - 1], before)
  }

  ghost function LastAdc(cs: seq<Command>, before: nat): nat {
    if cs == [] then before
    else if cs[|cs| - 1].AdcClk? then 2 * (cs[|cs| - 1].code / 0x4000 + 1) else LastAdc(cs[..|cs| - 1], before)
  }

  /** After any run of any length, each divider is the last one chosen. */
  lemma {:induction false} LastDividersApply(t: Tree, cs: seq<Command>)
    requires InRange(t) && forall c :: c in cs ==> Legal(c)
    ensures InRange(After(t, cs))
    ensures Divider16(After(t, cs).hpre) == LastHclk(cs, Divider16(t.hpre))
    ensures Divider16(After(t, cs).ppre1) == LastPclk1(cs, Divider16(t.ppre1))
    ensures Divider16(After(t, cs).ppre2) == LastPclk2(cs, Divider16(t.ppre2))
    ensures 2 * (After(t, cs).adcpre + 1) == LastAdc(cs, 2 * (t.adcpre + 1))
    decreases |cs|
  {
    if cs != [] {
      var most, c := cs[..|cs| - 1], cs[|cs| - 1];
      assert c in cs;
      LastDividersApply(t, most);
      StepDividers(After(t, most), c);
    }
  }

  lemma StepDividers(t: Tree, c: Command)
    requires InRange(t) && Legal(c)
    ensures InRange(Step(t, c))
    ensures Divider16(Step(t, c).hpre) == if c.Hclk? then Divider16(c.code / 0x10) else Divider16(t.hpre)
    ensures Divider16(Step(t, c).ppre1) == if c.Pclk1? then Divider16(c.code / 0x100) else Divider16(t.ppre1)
    ensures Divider16(Step(t, c).ppre2) == if c.Pclk2? then Divider16(c.code / 0x100) else Divider16(t.ppre2)
    ensures 2 * (Step(t, c).adcpre + 1) == if c.AdcClk? then 2 * (c.code / 0x4000 + 1) else 2 * (t.adcpre + 1)
  {
  }

  // ---- the crystal through both PLLs -----------------------------------------------------

  /** The calls that make the system clock from the crystal by way of PLL2, with dividers `p2` and `p1` and the
      factors of the codes `x2` and `x`. */
  function BothPlls(p2: nat, x2: nat, p1: nat, x: nat): seq<Command>
    requires 1 <= p2 && 1 <= p1
  {
    [Prediv2(0x10 * (p2 - 1)), Pll2(0x100 * x2), Prediv1(0x1_0000, p1 - 1), Pll(0x1_0000, 0x4_0000 * x), Source(2),
     Switch]
  }

  lemma {:induction false} AfterJoined(t: Tree, cs: seq<Command>, ds: seq<Command>)
    ensures After(t, cs + ds) == After(After(t, cs), ds)
    decreases |ds|
  {
    if ds == [] {
      assert cs + ds == cs;
    } else {
      var most := ds[..|ds| - 1];
      assert (cs + ds)[..|cs + ds| - 1] == cs + most;
      AfterJoined(t, cs, most);
    }
  }

  lemma {:induction false} AfterFirst(t: Tree, cs: seq<Command>)
    requires cs != []
    ensures After(t, cs) == After(Step(t, cs[0]), cs[1..])
  {
    assert cs == [cs[0]] + cs[1..];
    AfterJoined(t, [cs[0]], cs[1..]);
    assert [cs[0]][..0] == [];
  }

  lemma BothPllsSet(t: Tree, p2: nat, x2: nat, p1: nat, x: nat)
    requires 1 <= p2 && 1 <= p1
    ensures After(t, BothPlls(p2, x2, p1, x)) ==
            t.(prediv2 := p2 - 1, pll2mul := x2, prediv1src := 1, prediv1 := p1 - 1, pllsrc := 1, pllmul := x,
               sw := 2, sws := 2)
  {
    var cs := BothPlls(p2, x2, p1, x);
    AfterFirst(t, cs);
    var t1 := Step(t, cs[0]);
    AfterFirst(t1, cs[1..]);
    var t2 := Step(t1, cs[1]);
    AfterFirst(t2, cs[1..][1..]);
    var t3 := Step(t2, cs[2]);
    AfterFirst(t3, cs[1..][1..][1..]);
    var t4 := Step(t3, cs[3]);
    AfterFirst(t4, cs[1..][1..][1..][1..]);
    var t5 := Step(t4, cs[4]);
    AfterFirst(t5, cs[1..][1..][1..][1..][1..]);
  }

  /** The reported system clock is near the crystal times the true factors by the dividers: at most the exact
      quotient, and off by less than the floors cost. */
  ghost predicate NearBothPlls(hse: nat, p2: nat, x2: nat, p1: nat, x: nat, reported: nat)
    requires 1 <= p2 && 1 <= p1
  {
    var m2, mm := if x2 == 15 then 20 else x2 + 2, if x == 13 then 13 else 2 * (x + 2);
    Near(hse * m2 * mm, Product(2, Product(p1, p2)), reported, p1, PllFactor(x) * (x2 + 2 + p1))
  }

  /** In any state: after these calls the getter reports the crystal times both true factors, by both dividers, up
      to what the floors cost, if and only if it knows both factors. */
  lemma BothPllsReported(t: Tree, p2: nat, x2: nat, p1: nat, x: nat, hse: nat, hsi: nat)
    requires InRange(t) && 1000 <= hse <= 25_000_000 && hsi < U32
    requires 1 <= p2 <= 16 && 1 <= p1 <= 16 && (6 <= x2 <= 12 || 14 <= x2 <= 15) && (2 <= x <= 7 || x == 13)
    ensures NearBothPlls(hse, p2, x2, p1, x, Sysclk(After(t, BothPlls(p2, x2, p1, x)), hse, hsi))
            <==> x2 != 15 && x != 13
  {
    BothPllsSet(t, p2, x2, p1, x);
    var z := t.(prediv2 := p2 - 1, pll2mul := x2, prediv1src := 1, prediv1 := p1 - 1, pllsrc := 1, pllmul := x,
                sw := 2, sws := 2);
    SysclkAccurate(z, hse, hsi);
  }

  /** Exactly 72 MHz from 25 MHz, with nothing lost to a floor. */
  lemma At72(t: Tree, cs: seq<Command>, hsi: nat)
    requires InRange(t) && hsi < U32 && cs == [Hclk(0), Pclk2(0), Pclk1(0x400)] + BothPlls(5, 6, 5, 7)
    ensures InRange(After(t, cs))
    ensures var c := ClocksOf(After(t, cs), 25_000_000, hsi);
            c.sysclk == c.hclk == c.pclk2 == 72_000_000 && c.pclk1 == 36_000_000
  {
    var first := [Hclk(0), Pclk2(0), Pclk1(0x400)];
    AfterFirst(t, first);
    AfterFirst(Step(t, Hclk(0)), first[1..]);
    AfterFirst(Step(Step(t, Hclk(0)), Pclk2(0)), first[1..][1..]);
    AfterJoined(t, first, BothPlls(5, 6, 5, 7));
    BothPllsSet(After(t, first), 5, 6, 5, 7);
    ClocksAt72(After(t, cs), hsi);
  }

  lemma ClocksAt72(t: Tree, hsi: nat)
    requires InRange(t) && t.sws == 2 && t.pllsrc == 1 && t.prediv1src == 1
    requires t.prediv2 == 4 && t.pll2mul == 6 && t.prediv1 == 4 && t.pllmul == 7
    requires t.hpre == 0 && t.ppre2 == 0 && t.ppre1 == 4
    ensures var c := ClocksOf(t, 25_000_000, hsi);
            c.sysclk == c.hclk == c.pclk2 == 72_000_000 && c.pclk1 == 36_000_000
  {
    FloorUnique(25_000_000, 5, 5_000_000);
    FloorUnique(40_000_000, 5, 8_000_000);
    ClocksAreTuned(t, 25_000_000, hsi);
  }

  // ---- the registers as words ------------------------------------------------------------

  datatype Regs = Regs(cfgr: Word, cfgr2: Word)

  /** A setter writes one or two fields of one register. */
  datatype Write = Write(second: bool, pos: nat, f: seq<bool>, pos2: nat, g: seq<bool>)

  /** The fields of each setter; a setter of one field has an empty second one. */
  function WriteOf(c: Command): Write
    requires Legal(c) && !c.Switch?
  {
    match c
    case Hclk(code) => Write(false, 4, Bits(code / 0x10, 4), 32, [])
    case Pclk1(code) => Write(false, 8, Bits(code / 0x100, 3), 32, [])
    case Pclk2(code) => Write(false, 11, Bits(code / 0x100, 3), 32, [])
    case AdcClk(code) => Write(false, 14, Bits(code / 0x4000, 2), 32, [])
    case Source(code) => Write(false, 0, Bits(code, 2), 32, [])
    case Pll(source, mul) => Write(false, 16, Bits(source / 0x10000, 1), 18, Bits(mul / 0x40000, 4))
    case Prediv1(source, div) => Write(true, 0, Bits(div, 4), 16, Bits(source / 0x10000, 1))
    case Prediv2(div) => Write(true, 4, Bits(div / 0x10, 4), 32, [])
    case Pll2(mul) => Write(true, 8, Bits(mul / 0x100, 4), 32, [])
  }

  predicate Fits(x: Write) {
    x.pos + |x.f| <= x.pos2 && x.pos2 + |x.g| <= 32
  }

  function Spliced(w: Word, x: Write): Word
    requires Fits(x)
  {
    Splice(Splice(w, x.pos, x.f), x.pos2, x.g)
  }

  lemma WritesFit(c: Command)
    requires Legal(c) && !c.Switch?
    ensures Fits(WriteOf(c))
  {
  }

  /** Both registers after a setter. */
  function Written(r: Regs, c: Command): Regs
    requires Legal(c) && !c.Switch?
  {
    WritesFit(c);
    if WriteOf(c).second then r.(cfgr2 := Spliced(r.cfgr2, WriteOf(c))) else r.(cfgr := Spliced(r.cfgr, WriteOf(c)))
  }

  /** Two places do not overlap. */
  predicate Apart(p: nat, m: nat, q: nat, n: nat) {
    p + m <= q || q + n <= p
  }

  predicate AllApart(x: Write, y: Write) {
    && Apart(x.pos, |x.f|, y.pos, |y.f|) && Apart(x.pos, |x.f|, y.pos2, |y.g|)
    && Apart(x.pos2, |x.g|, y.pos, |y.f|) && Apart(x.pos2, |x.g|, y.pos2, |y.g|)
  }

  lemma WritesCommute(w: Word, x: Write, y: Write)
    requires Fits(x) && Fits(y) && AllApart(x, y)
    ensures Spliced(Spliced(w, x), y) == Spliced(Spliced(w, y), x)
  {
    var one := Splice(w, x.pos, x.f);
    SplicesCommute(one, x.pos2, x.g, y.pos, y.f);
    SplicesCommute(w, x.pos, x.f, y.pos, y.f);
    var other := Splice(w, y.pos, y.f);
    SplicesCommute(Splice(other, x.pos, x.f), x.pos2, x.g, y.pos2, y.g);
    SplicesCommute(other, x.pos, x.f, y.pos2, y.g);
  }

  lemma WriteTwice(w: Word, x: Write, y: Write)
    requires Fits(x) && Fits(y) && x.pos == y.pos && |x.f| == |y.f| && x.pos2 == y.pos2 && |x.g| == |y.g|
    ensures Spliced(Spliced(w, x), y) == Spliced(w, y)
  {
    SplicesCommute(Splice(w, x.pos, x.f), x.pos2, x.g, y.pos, y.f);
    SpliceTwice(w, x.pos, x.f, y.f);
    SpliceTwice(Splice(w, y.pos, y.f), x.pos2, x.g, y.g);
  }

  lemma KindsApart(a: Command, b: Command)
    requires Legal(a) && Legal(b) && !a.Switch? && !b.Switch? && Kind(a) != Kind(b)
    requires WriteOf(a).second == WriteOf(b).second
    ensures AllApart(WriteOf(a), WriteOf(b))
  {
  }

  /** Different setters commute, on every bit of both registers. */
  lemma SettersCommute(r: Regs, a: Command, b: Command)
    requires Legal(a) && Legal(b) && !a.Switch? && !b.Switch? && Kind(a) != Kind(b)
    ensures Written(Written(r, a), b) == Written(Written(r, b), a)
  {
    WritesFit(a);
    WritesFit(b);
    if WriteOf(a).second == WriteOf(b).second {
      KindsApart(a, b);
      WritesCommute(if WriteOf(a).second then r.cfgr2 else r.cfgr, WriteOf(a), WriteOf(b));
    }
  }

  /** Of two calls of one setter the second decides, on every bit. */
  lemma SetterAgain(r: Regs, a: Command, b: Command)
    requires Legal(a) && Legal(b) && !a.Switch? && !b.Switch? && Kind(a) == Kind(b)
    ensures Written(Written(r, a), b) == Written(r, b)
  {
    WritesFit(a);
    WritesFit(b);
    WriteTwice(if WriteOf(a).second then r.cfgr2 else r.cfgr, WriteOf(a), WriteOf(b));
  }

  function Kind(c: Command): nat {
    match c
    case Hclk(_) => 0
    case Pclk1(_) => 1
    case Pclk2(_) => 2
    case AdcClk(_) => 3
    case Source(_) => 4
    case Pll(_, _) => 5
    case Prediv1(_, _) => 6
    case Prediv2(_) => 7
    case Pll2(_) => 8
    case Switch => 9
  }
}
