/** Field elements as ten signed limbs of alternately 26 and 25 bits. */
module Limbs25 {
  import opened Field

  datatype Limbs = Limbs(l0: int, l1: int, l2: int, l3: int, l4: int, l5: int, l6: int, l7: int, l8: int, l9: int)

  const W1: int := 0x400_0000
  const W2: int := 0x8_0000_0000_0000
  const W3: int := 0x2000_0000_0000_0000_0000
  const W4: int := 0x40_0000_0000_0000_0000_0000_0000
  const W5: int := 0x1_0000_0000_0000_0000_0000_0000_0000_0000
  const W6: int := 0x200_0000_0000_0000_0000_0000_0000_0000_0000_0000
  const W7: int := 0x8_0000_0000_0000_0000_0000_0000_0000_0000_0000_0000_0000
  const W8: int := 0x1000_0000_0000_0000_0000_0000_0000_0000_0000_0000_0000_0000_0000
  const W9: int := 0x40_0000_0000_0000_0000_0000_0000_0000_0000_0000_0000_0000_0000_0000_0000

  /** The integer a vector of limbs stands for: limb i weighs 2 to the power ceil(25.5 i). */
  function Value(x: Limbs): int {
    x.l0 + W1 * x.l1 + W2 * x.l2 + W3 * x.l3 + W4 * x.l4 + W5 * x.l5 + W6 * x.l6 + W7 * x.l7 + W8 * x.l8 + W9 * x.l9
  }

  function Plus(x: Limbs, y: Limbs): Limbs {
    Limbs(x.l0 + y.l0, x.l1 + y.l1, x.l2 + y.l2, x.l3 + y.l3, x.l4 + y.l4,
          x.l5 + y.l5, x.l6 + y.l6, x.l7 + y.l7, x.l8 + y.l8, x.l9 + y.l9)
  }

  lemma PlusValue(x: Limbs, y: Limbs)
    ensures Value(Plus(x, y)) == Value(x) + Value(y)
  {}
  /** The ten coefficients of the schoolbook product, folded by 19, with 2 for a pair of odd limbs. */
  function Product(f: Limbs, g: Limbs): Limbs {
    Limbs(
      f.l0 * g.l0 + (2 * f.l1) * (19 * g.l9) + f.l2 * (19 * g.l8) + (2 * f.l3) * (19 * g.l7) + f.l4 * (19 * g.l6)
        + (2 * f.l5) * (19 * g.l5) + f.l6 * (19 * g.l4) + (2 * f.l7) * (19 * g.l3) + f.l8 * (19 * g.l2)
          + (2 * f.l9) * (19 * g.l1),
      f.l0 * g.l1 + f.l1 * g.l0 + f.l2 * (19 * g.l9) + f.l3 * (19 * g.l8) + f.l4 * (19 * g.l7)
        + f.l5 * (19 * g.l6) + f.l6 * (19 * g.l5) + f.l7 * (19 * g.l4) + f.l8 * (19 * g.l3) + f.l9 * (19 * g.l2),
      f.l0 * g.l2 + (2 * f.l1) * g.l1 + f.l2 * g.l0 + (2 * f.l3) * (19 * g.l9) + f.l4 * (19 * g.l8)
        + (2 * f.l5) * (19 * g.l7) + f.l6 * (19 * g.l6) + (2 * f.l7) * (19 * g.l5) + f.l8 * (19 * g.l4)
          + (2 * f.l9) * (19 * g.l3),
      f.l0 * g.l3 + f.l1 * g.l2 + f.l2 * g.l1 + f.l3 * g.l0 + f.l4 * (19 * g.l9)
        + f.l5 * (19 * g.l8) + f.l6 * (19 * g.l7) + f.l7 * (19 * g.l6) + f.l8 * (19 * g.l5) + f.l9 * (19 * g.l4),
      f.l0 * g.l4 + (2 * f.l1) * g.l3 + f.l2 * g.l2 + (2 * f.l3) * g.l1 + f.l4 * g.l0
        + (2 * f.l5) * (19 * g.l9) + f.l6 * (19 * g.l8) + (2 * f.l7) * (19 * g.l7) + f.l8 * (19 * g.l6)
          + (2 * f.l9) * (19 * g.l5),
      f.l0 * g.l5 + f.l1 * g.l4 + f.l2 * g.l3 + f.l3 * g.l2 + f.l4 * g.l1
        + f.l5 * g.l0 + f.l6 * (19 * g.l9) + f.l7 * (19 * g.l8) + f.l8 * (19 * g.l7) + f.l9 * (19 * g.l6),
      f.l0 * g.l6 + (2 * f.l1) * g.l5 + f.l2 * g.l4 + (2 * f.l3) * g.l3 + f.l4 * g.l2
        + (2 * f.l5) * g.l1 + f.l6 * g.l0 + (2 * f.l7) * (19 * g.l9) + f.l8 * (19 * g.l8) + (2 * f.l9) * (19 * g.l7),
      f.l0 * g.l7 + f.l1 * g.l6 + f.l2 * g.l5 + f.l3 * g.l4 + f.l4 * g.l3
        + f.l5 * g.l2 + f.l6 * g.l1 + f.l7 * g.l0 + f.l8 * (19 * g.l9) + f.l9 * (19 * g.l8),
      f.l0 * g.l8 + (2 * f.l1) * g.l7 + f.l2 * g.l6 + (2 * f.l3) * g.l5 + f.l4 * g.l4
        + (2 * f.l5) * g.l3 + f.l6 * g.l2 + (2 * f.l7) * g.l1 + f.l8 * g.l0 + (2 * f.l9) * (19 * g.l9),
      f.l0 * g.l9 + f.l1 * g.l8 + f.l2 * g.l7 + f.l3 * g.l6 + f.l4 * g.l5
        + f.l5 * g.l4 + f.l6 * g.l3 + f.l7 * g.l2 + f.l8 * g.l1 + f.l9 * g.l0)
  }

  /** How often p is folded away by the wrapped terms. */
  function Quotient(f: Limbs, g: Limbs): int {
    (2 * f.l1 * g.l9 + f.l2 * g.l8 + 2 * f.l3 * g.l7 + f.l4 * g.l6 + 2 * f.l5 * g.l5 + f.l6 * g.l4 + 2 * f.l7 * g.l3
      + f.l8 * g.l2 + 2 * f.l9 * g.l1)
    + W1 * (f.l2 * g.l9 + f.l3 * g.l8 + f.l4 * g.l7 + f.l5 * g.l6 + f.l6 * g.l5 + f.l7 * g.l4 + f.l8 * g.l3
      + f.l9 * g.l2)
    + W2 * (2 * f.l3 * g.l9 + f.l4 * g.l8 + 2 * f.l5 * g.l7 + f.l6 * g.l6 + 2 * f.l7 * g.l5 + f.l8 * g.l4
      + 2 * f.l9 * g.l3)
    + W3 * (f.l4 * g.l9 + f.l5 * g.l8 + f.l6 * g.l7 + f.l7 * g.l6 + f.l8 * g.l5 + f.l9 * g.l4)
    + W4 * (2 * f.l5 * g.l9 + f.l6 * g.l8 + 2 * f.l7 * g.l7 + f.l8 * g.l6 + 2 * f.l9 * g.l5)
    + W5 * (f.l6 * g.l9 + f.l7 * g.l8 + f.l8 * g.l7 + f.l9 * g.l6)
    + W6 * (2 * f.l7 * g.l9 + f.l8 * g.l8 + 2 * f.l9 * g.l7)
    + W7 * (f.l8 * g.l9 + f.l9 * g.l8)
    + W8 * (2 * f.l9 * g.l9)
  }

  /** The coefficients stand for the product of the two values, up to a multiple of p. */
  lemma ProductValue(f: Limbs, g: Limbs)
    ensures Value(Product(f, g)) == Value(f) * Value(g) - Quotient(f, g) * P
  {}

  // ----------------------------------------------------------- the carry chain

  /** Rounding shifts: the remainder lies in the balanced range. */
  function Carry26(x: int): (c: int)
    ensures -0x200_0000 <= x - c * 0x400_0000 < 0x200_0000
  {
    (x + 0x200_0000) / 0x400_0000
  }

  function Carry25(x: int): (c: int)
    ensures -0x100_0000 <= x - c * 0x200_0000 < 0x100_0000
  {
    (x + 0x100_0000) / 0x200_0000
  }

  /** One carry of each kind: out of limb 0, 2, 4, 6 or 8, out of limb 1, 3, 5 or 7, and out of limb 9 back into limb
      0. */
  function Even(x: int, next: int): (int, int) { (x - Carry26(x) * 0x400_0000, next + Carry26(x)) }
  function Odd(x: int, next: int): (int, int) { (x - Carry25(x) * 0x200_0000, next + Carry25(x)) }
  function Last(x: int, first: int): (int, int) { (x - Carry25(x) * 0x200_0000, first + Carry25(x) * 19) }

  /** The twelve carries in the order 0 4 1 5 2 6 3 7 4 8 9 0. */
  function Carried(x: Limbs): Limbs {
    var (a0, a1) := Even(x.l0, x.l1);
    var (a4, a5) := Even(x.l4, x.l5);
    var (b1, a2) := Odd(a1, x.l2);
    var (b5, a6) := Odd(a5, x.l6);
    var (b2, a3) := Even(a2, x.l3);
    var (b6, a7) := Even(a6, x.l7);
    var (b3, b4) := Odd(a3, a4);
    var (b7, a8) := Odd(a7, x.l8);
    var (c4, c5) := Even(b4, b5);
    var (b8, a9) := Even(a8, x.l9);
    var (b9, b0) := Last(a9, a0);
    var (c0, c1) := Even(b0, b1);
    Limbs(c0, c1, b2, b3, c4, c5, b6, b7, b8, b9)
  }

  /** The multiple of p that the carry out of limb 9 folds away. */
  function Folded(x: Limbs): int {
    var (_, a1) := Even(x.l0, x.l1);
    var (a4, a5) := Even(x.l4, x.l5);
    var (_, a6) := Odd(a5, x.l6);
    var (_, a7) := Even(a6, x.l7);
    var (_, a8) := Odd(a7, x.l8);
    var (_, a9) := Even(a8, x.l9);
    Carry25(a9)
  }

  /** Carrying changes the value by a multiple of p only. */
  lemma CarriedValue(x: Limbs)
    ensures Value(Carried(x)) == Value(x) - Folded(x) * P
  {
    hide Carry26, Carry25;
  }

  /** Absolute bounds on the limbs, one for the even and one for the odd positions. */
  predicate Within(x: Limbs, even: int, odd: int) {
    && -even <= x.l0 <= even && -odd <= x.l1 <= odd && -even <= x.l2 <= even && -odd <= x.l3 <= odd
    && -even <= x.l4 <= even && -odd <= x.l5 <= odd && -even <= x.l6 <= even && -odd <= x.l7 <= odd
    && -even <= x.l8 <= even && -odd <= x.l9 <= odd
  }

  /** 1.65 * 2^26 and 1.65 * 2^25, what a factor may have; 1.01 * 2^25 and 1.01 * 2^24, what a product has. */
  const IN_EVEN := 110729625
  const IN_ODD := 55364812
  const OUT_EVEN := 33890508
  const OUT_ODD := 16945254
  /** Bounds on the coefficients: 1.4 * 2^60 and 1.7 * 2^59, and twice that. */
  const WIDE_EVEN := 0x2CCC_CCCC_CCCC_CCCC
  const WIDE_ODD := 0x1B33_3333_3333_3333

  lemma CarriedBounds(x: Limbs)
    requires Within(x, WIDE_EVEN, WIDE_ODD)
    ensures Within(Carried(x), OUT_EVEN, OUT_ODD)
  {
  }

  // ------------------------------------------------------------ machine words

  newtype int32 = x: int | -0x8000_0000 <= x < 0x8000_0000
  newtype int64 = x: int | -0x8000_0000_0000_0000 <= x < 0x8000_0000_0000_0000

  function LimbsOf(s: seq<int32>): Limbs
    requires |s| == 10
  {
    Limbs(s[0] as int, s[1] as int, s[2] as int, s[3] as int, s[4] as int,
          s[5] as int, s[6] as int, s[7] as int, s[8] as int, s[9] as int)
  }

  /** A 32 by 32 bit product in 64 bits, with a bound known from bounds on the factors. */
  function Times(a: int32, b: int32, ghost m: int, ghost n: int): (r: int64)
    requires -m <= a as int <= m && -n <= b as int <= n && m * n < 0x8000_0000_0000_0000
    ensures r as int == a as int * b as int && -(m * n) <= r as int <= m * n
  {
    ProductBound(a as int, b as int, m, n);
    a as int64 * b as int64
  }

  lemma ProductBound(a: int, b: int, m: int, n: int)
    requires -m <= a <= m && -n <= b <= n
    ensures -(m * n) <= a * b <= m * n
  {
    if a >= 0 {
      assert a * b <= a * n <= m * n && -(a * n) <= a * b;
    } else {
      assert (-a) * b <= (-a) * n <= m * n && -((-a) * n) <= (-a) * b;
      assert (-a) * b == -(a * b);
    }
  }

  method CarryOut26(x: int64, next: int64) returns (x': int64, next': int64)
    requires -0x7000_0000_0000_0000 <= x <= 0x7000_0000_0000_0000
      && -0x7000_0000_0000_0000 <= next <= 0x7000_0000_0000_0000
    ensures (x' as int, next' as int) == Even(x as int, next as int)
    ensures -0x200_0000 <= x' < 0x200_0000 && next - 0x20_0000_0000 <= next' <= next + 0x20_0000_0000
  {
    var carry := (x + 0x200_0000) / 0x400_0000;
    next' := next + carry;
    x' := x - carry * 0x400_0000;
  }

  method CarryOut25(x: int64, next: int64) returns (x': int64, next': int64)
    requires -0x7000_0000_0000_0000 <= x <= 0x7000_0000_0000_0000
      && -0x7000_0000_0000_0000 <= next <= 0x7000_0000_0000_0000
    ensures (x' as int, next' as int) == Odd(x as int, next as int)
    ensures -0x100_0000 <= x' < 0x100_0000 && next - 0x40_0000_0000 <= next' <= next + 0x40_0000_0000
  {
    var carry := (x + 0x100_0000) / 0x200_0000;
    next' := next + carry;
    x' := x - carry * 0x200_0000;
  }

  method CarryBack(x: int64, first: int64) returns (x': int64, first': int64)
    requires -0x7000_0000_0000_0000 <= x <= 0x7000_0000_0000_0000
      && -0x7000_0000_0000_0000 <= first <= 0x7000_0000_0000_0000
    ensures (x' as int, first' as int) == Last(x as int, first as int)
    ensures -0x100_0000 <= x' < 0x100_0000 && first - 0x800_0000_0000 <= first' <= first + 0x800_0000_0000
  {
    var carry := (x + 0x100_0000) / 0x200_0000;
    first' := first + carry * 19;
    x' := x - carry * 0x200_0000;
  }

  /** The carry chain that ends every multiplication. All intermediate words fit into 64 bits, the limbs into 32. */
  method StoreCarried(h: array<int32>, x0: int64, x1: int64, x2: int64, x3: int64, x4: int64,
                      x5: int64, x6: int64, x7: int64, x8: int64, x9: int64, ghost x: Limbs)
    requires h.Length == 10
    requires x == Limbs(x0 as int, x1 as int, x2 as int, x3 as int, x4 as int, x5 as int, x6 as int, x7 as int,
                        x8 as int, x9 as int)
    requires Within(x, WIDE_EVEN, WIDE_ODD)
    modifies h
    ensures LimbsOf(h[..]) == Carried(x) && Within(LimbsOf(h[..]), OUT_EVEN, OUT_ODD)
  {
    hide Even, Odd, Last;
    CarriedBounds(x);
    var h0, h1, h2, h3, h4, h5, h6, h7, h8, h9 := x0, x1, x2, x3, x4, x5, x6, x7, x8, x9;
    h0, h1 := CarryOut26(h0, h1);
    h4, h5 := CarryOut26(h4, h5);
    h1, h2 := CarryOut25(h1, h2);
    h5, h6 := CarryOut25(h5, h6);
    h2, h3 := CarryOut26(h2, h3);
    h6, h7 := CarryOut26(h6, h7);
    h3, h4 := CarryOut25(h3, h4);
    h7, h8 := CarryOut25(h7, h8);
    h4, h5 := CarryOut26(h4, h5);
    h8, h9 := CarryOut26(h8, h9);
    h9, h0 := CarryBack(h9, h0);
    h0, h1 := CarryOut26(h0, h1);
    assert Limbs(h0 as int, h1 as int, h2 as int, h3 as int, h4 as int, h5 as int, h6 as int, h7 as int, h8 as int,
                 h9 as int) == Carried(x);
    Store(h, h0, h1, h2, h3, h4, h5, h6, h7, h8, h9);
  }

  predicate Narrow(x: int64) { -0x8000_0000 <= x < 0x8000_0000 }

  method Store(h: array<int32>, h0: int64, h1: int64, h2: int64, h3: int64, h4: int64,
               h5: int64, h6: int64, h7: int64, h8: int64, h9: int64)
    requires h.Length == 10
    requires Narrow(h0) && Narrow(h1) && Narrow(h2) && Narrow(h3) && Narrow(h4)
    requires Narrow(h5) && Narrow(h6) && Narrow(h7) && Narrow(h8) && Narrow(h9)
    modifies h
    ensures LimbsOf(h[..]) == Limbs(h0 as int, h1 as int, h2 as int, h3 as int, h4 as int, h5 as int, h6 as int,
                                    h7 as int, h8 as int, h9 as int)
  {
    h[0], h[1], h[2], h[3], h[4] := h0 as int32, h1 as int32, h2 as int32, h3 as int32, h4 as int32;
    h[5], h[6], h[7], h[8], h[9] := h5 as int32, h6 as int32, h7 as int32, h8 as int32, h9 as int32;
  }

  predicate Factor(s: seq<int32>) { |s| == 10 && Within(LimbsOf(s), IN_EVEN, IN_ODD) }

  // ------------------------------------------------------------------ multiply

  function Mul0(f: seq<int32>, g: seq<int32>): (r: int64)
    requires Factor(f) && Factor(g)
    ensures r as int == Product(LimbsOf(f), LimbsOf(g)).l0 && -WIDE_EVEN <= 2 * r as int <= WIDE_EVEN
  {
    Times(f[0], g[0], IN_EVEN, IN_EVEN) + Times(2 * f[1], 19 * g[9], 2 * IN_ODD, 19 * IN_ODD)
    + Times(f[2], 19 * g[8], IN_EVEN, 19 * IN_EVEN) + Times(2 * f[3], 19 * g[7], 2 * IN_ODD, 19 * IN_ODD)
    + Times(f[4], 19 * g[6], IN_EVEN, 19 * IN_EVEN) + Times(2 * f[5], 19 * g[5], 2 * IN_ODD, 19 * IN_ODD)
    + Times(f[6], 19 * g[4], IN_EVEN, 19 * IN_EVEN) + Times(2 * f[7], 19 * g[3], 2 * IN_ODD, 19 * IN_ODD)
    + Times(f[8], 19 * g[2], IN_EVEN, 19 * IN_EVEN) + Times(2 * f[9], 19 * g[1], 2 * IN_ODD, 19 * IN_ODD)
  }

  function Mul1(f: seq<int32>, g: seq<int32>): (r: int64)
    requires Factor(f) && Factor(g)
    ensures r as int == Product(LimbsOf(f), LimbsOf(g)).l1 && -WIDE_ODD <= 2 * r as int <= WIDE_ODD
  {
    Times(f[0], g[1], IN_EVEN, IN_ODD) + Times(f[1], g[0], IN_ODD, IN_EVEN)
    + Times(f[2], 19 * g[9], IN_EVEN, 19 * IN_ODD) + Times(f[3], 19 * g[8], IN_ODD, 19 * IN_EVEN)
    + Times(f[4], 19 * g[7], IN_EVEN, 19 * IN_ODD) + Times(f[5], 19 * g[6], IN_ODD, 19 * IN_EVEN)
    + Times(f[6], 19 * g[5], IN_EVEN, 19 * IN_ODD) + Times(f[7], 19 * g[4], IN_ODD, 19 * IN_EVEN)
    + Times(f[8], 19 * g[3], IN_EVEN, 19 * IN_ODD) + Times(f[9], 19 * g[2], IN_ODD, 19 * IN_EVEN)
  }

  function Mul2(f: seq<int32>, g: seq<int32>): (r: int64)
    requires Factor(f) && Factor(g)
    ensures r as int == Product(LimbsOf(f), LimbsOf(g)).l2 && -WIDE_EVEN <= 2 * r as int <= WIDE_EVEN
  {
    Times(f[0], g[2], IN_EVEN, IN_EVEN) + Times(2 * f[1], g[1], 2 * IN_ODD, IN_ODD)
    + Times(f[2], g[0], IN_EVEN, IN_EVEN) + Times(2 * f[3], 19 * g[9], 2 * IN_ODD, 19 * IN_ODD)
    + Times(f[4], 19 * g[8], IN_EVEN, 19 * IN_EVEN) + Times(2 * f[5], 19 * g[7], 2 * IN_ODD, 19 * IN_ODD)
    + Times(f[6], 19 * g[6], IN_EVEN, 19 * IN_EVEN) + Times(2 * f[7], 19 * g[5], 2 * IN_ODD, 19 * IN_ODD)
    + Times(f[8], 19 * g[4], IN_EVEN, 19 * IN_EVEN) + Times(2 * f[9], 19 * g[3], 2 * IN_ODD, 19 * IN_ODD)
  }

  function Mul3(f: seq<int32>, g: seq<int32>): (r: int64)
    requires Factor(f) && Factor(g)
    ensures r as int == Product(LimbsOf(f), LimbsOf(g)).l3 && -WIDE_ODD <= 2 * r as int <= WIDE_ODD
  {
    Times(f[0], g[3], IN_EVEN, IN_ODD) + Times(f[1], g[2], IN_ODD, IN_EVEN)
    + Times(f[2], g[1], IN_EVEN, IN_ODD) + Times(f[3], g[0], IN_ODD, IN_EVEN)
    + Times(f[4], 19 * g[9], IN_EVEN, 19 * IN_ODD) + Times(f[5], 19 * g[8], IN_ODD, 19 * IN_EVEN)
    + Times(f[6], 19 * g[7], IN_EVEN, 19 * IN_ODD) + Times(f[7], 19 * g[6], IN_ODD, 19 * IN_EVEN)
    + Times(f[8], 19 * g[5], IN_EVEN, 19 * IN_ODD) + Times(f[9], 19 * g[4], IN_ODD, 19 * IN_EVEN)
  }

  function Mul4(f: seq<int32>, g: seq<int32>): (r: int64)
    requires Factor(f) && Factor(g)
    ensures r as int == Product(LimbsOf(f), LimbsOf(g)).l4 && -WIDE_EVEN <= 2 * r as int <= WIDE_EVEN
  {
    Times(f[0], g[4], IN_EVEN, IN_EVEN) + Times(2 * f[1], g[3], 2 * IN_ODD, IN_ODD)
    + Times(f[2], g[2], IN_EVEN, IN_EVEN) + Times(2 * f[3], g[1], 2 * IN_ODD, IN_ODD)
    + Times(f[4], g[0], IN_EVEN, IN_EVEN) + Times(2 * f[5], 19 * g[9], 2 * IN_ODD, 19 * IN_ODD)
    + Times(f[6], 19 * g[8], IN_EVEN, 19 * IN_EVEN) + Times(2 * f[7], 19 * g[7], 2 * IN_ODD, 19 * IN_ODD)
    + Times(f[8], 19 * g[6], IN_EVEN, 19 * IN_EVEN) + Times(2 * f[9], 19 * g[5], 2 * IN_ODD, 19 * IN_ODD)
  }

  function Mul5(f: seq<int32>, g: seq<int32>): (r: int64)
    requires Factor(f) && Factor(g)
    ensures r as int == Product(LimbsOf(f), LimbsOf(g)).l5 && -WIDE_ODD <= 2 * r as int <= WIDE_ODD
  {
    Times(f[0], g[5], IN_EVEN, IN_ODD) + Times(f[1], g[4], IN_ODD, IN_EVEN)
    + Times(f[2], g[3], IN_EVEN, IN_ODD) + Times(f[3], g[2], IN_ODD, IN_EVEN)
    + Times(f[4], g[1], IN_EVEN, IN_ODD) + Times(f[5], g[0], IN_ODD, IN_EVEN)
    + Times(f[6], 19 * g[9], IN_EVEN, 19 * IN_ODD) + Times(f[7], 19 * g[8], IN_ODD, 19 * IN_EVEN)
    + Times(f[8], 19 * g[7], IN_EVEN, 19 * IN_ODD) + Times(f[9], 19 * g[6], IN_ODD, 19 * IN_EVEN)
  }

  function Mul6(f: seq<int32>, g: seq<int32>): (r: int64)
    requires Factor(f) && Factor(g)
    ensures r as int == Product(LimbsOf(f), LimbsOf(g)).l6 && -WIDE_EVEN <= 2 * r as int <= WIDE_EVEN
  {
    Times(f[0], g[6], IN_EVEN, IN_EVEN) + Times(2 * f[1], g[5], 2 * IN_ODD, IN_ODD)
    + Times(f[2], g[4], IN_EVEN, IN_EVEN) + Times(2 * f[3], g[3], 2 * IN_ODD, IN_ODD)
    + Times(f[4], g[2], IN_EVEN, IN_EVEN) + Times(2 * f[5], g[1], 2 * IN_ODD, IN_ODD)
    + Times(f[6], g[0], IN_EVEN, IN_EVEN) + Times(2 * f[7], 19 * g[9], 2 * IN_ODD, 19 * IN_ODD)
    + Times(f[8], 19 * g[8], IN_EVEN, 19 * IN_EVEN) + Times(2 * f[9], 19 * g[7], 2 * IN_ODD, 19 * IN_ODD)
  }

  function Mul7(f: seq<int32>, g: seq<int32>): (r: int64)
    requires Factor(f) && Factor(g)
    ensures r as int == Product(LimbsOf(f), LimbsOf(g)).l7 && -WIDE_ODD <= 2 * r as int <= WIDE_ODD
  {
    Times(f[0], g[7], IN_EVEN, IN_ODD) + Times(f[1], g[6], IN_ODD, IN_EVEN)
    + Times(f[2], g[5], IN_EVEN, IN_ODD) + Times(f[3], g[4], IN_ODD, IN_EVEN)
    + Times(f[4], g[3], IN_EVEN, IN_ODD) + Times(f[5], g[2], IN_ODD, IN_EVEN)
    + Times(f[6], g[1], IN_EVEN, IN_ODD) + Times(f[7], g[0], IN_ODD, IN_EVEN)
    + Times(f[8], 19 * g[9], IN_EVEN, 19 * IN_ODD) + Times(f[9], 19 * g[8], IN_ODD, 19 * IN_EVEN)
  }

  function Mul8(f: seq<int32>, g: seq<int32>): (r: int64)
    requires Factor(f) && Factor(g)
    ensures r as int == Product(LimbsOf(f), LimbsOf(g)).l8 && -WIDE_EVEN <= 2 * r as int <= WIDE_EVEN
  {
    Times(f[0], g[8], IN_EVEN, IN_EVEN) + Times(2 * f[1], g[7], 2 * IN_ODD, IN_ODD)
    + Times(f[2], g[6], IN_EVEN, IN_EVEN) + Times(2 * f[3], g[5], 2 * IN_ODD, IN_ODD)
    + Times(f[4], g[4], IN_EVEN, IN_EVEN) + Times(2 * f[5], g[3], 2 * IN_ODD, IN_ODD)
    + Times(f[6], g[2], IN_EVEN, IN_EVEN) + Times(2 * f[7], g[1], 2 * IN_ODD, IN_ODD)
    + Times(f[8], g[0], IN_EVEN, IN_EVEN) + Times(2 * f[9], 19 * g[9], 2 * IN_ODD, 19 * IN_ODD)
  }

  function Mul9(f: seq<int32>, g: seq<int32>): (r: int64)
    requires Factor(f) && Factor(g)
    ensures r as int == Product(LimbsOf(f), LimbsOf(g)).l9 && -WIDE_ODD <= 2 * r as int <= WIDE_ODD
  {
    Times(f[0], g[9], IN_EVEN, IN_ODD) + Times(f[1], g[8], IN_ODD, IN_EVEN)
    + Times(f[2], g[7], IN_EVEN, IN_ODD) + Times(f[3], g[6], IN_ODD, IN_EVEN)
    + Times(f[4], g[5], IN_EVEN, IN_ODD) + Times(f[5], g[4], IN_ODD, IN_EVEN)
    + Times(f[6], g[3], IN_EVEN, IN_ODD) + Times(f[7], g[2], IN_ODD, IN_EVEN)
    + Times(f[8], g[1], IN_EVEN, IN_ODD) + Times(f[9], g[0], IN_ODD, IN_EVEN)
  }

  /** h = f * g. The output may be one of the inputs: every limb is read first. */
  method Mul(h: array<int32>, f: array<int32>, g: array<int32>)
    requires h.Length == 10 && Factor(f[..]) && Factor(g[..])
    modifies h
    ensures LimbsOf(h[..]) == Carried(Product(old(LimbsOf(f[..])), old(LimbsOf(g[..]))))
    ensures Within(LimbsOf(h[..]), OUT_EVEN, OUT_ODD)
  {
    hide Carried, Product;
    var a, b := f[..], g[..];
    StoreCarried(h, Mul0(a, b), Mul1(a, b), Mul2(a, b), Mul3(a, b), Mul4(a, b), Mul5(a, b), Mul6(a, b), Mul7(a, b),
                 Mul8(a, b), Mul9(a, b), Product(LimbsOf(a), LimbsOf(b)));
  }

  // -------------------------------------------------------------------- square

  /** The ten coefficients as fe25519_sq computes them: equal products are computed once and doubled. */
  function Square(f: Limbs): Limbs {
    Limbs(
      f.l0 * f.l0 + (2 * f.l1) * (38 * f.l9) + (2 * f.l2) * (19 * f.l8) + (2 * f.l3) * (38 * f.l7)
        + (2 * f.l4) * (19 * f.l6) + f.l5 * (38 * f.l5),
      (2 * f.l0) * f.l1 + f.l2 * (38 * f.l9) + (2 * f.l3) * (19 * f.l8) + f.l4 * (38 * f.l7) + (2 * f.l5) * (19 * f.l6),
      (2 * f.l0) * f.l2 + (2 * f.l1) * f.l1 + (2 * f.l3) * (38 * f.l9) + (2 * f.l4) * (19 * f.l8)
        + (2 * f.l5) * (38 * f.l7) + f.l6 * (19 * f.l6),
      (2 * f.l0) * f.l3 + (2 * f.l1) * f.l2 + f.l4 * (38 * f.l9) + (2 * f.l5) * (19 * f.l8) + f.l6 * (38 * f.l7),
      (2 * f.l0) * f.l4 + (2 * f.l1) * (2 * f.l3) + f.l2 * f.l2 + (2 * f.l5) * (38 * f.l9) + (2 * f.l6) * (19 * f.l8)
        + f.l7 * (38 * f.l7),
      (2 * f.l0) * f.l5 + (2 * f.l1) * f.l4 + (2 * f.l2) * f.l3 + f.l6 * (38 * f.l9) + (2 * f.l7) * (19 * f.l8),
      (2 * f.l0) * f.l6 + (2 * f.l1) * (2 * f.l5) + (2 * f.l2) * f.l4 + (2 * f.l3) * f.l3 + (2 * f.l7) * (38 * f.l9)
        + f.l8 * (19 * f.l8),
      (2 * f.l0) * f.l7 + (2 * f.l1) * f.l6 + (2 * f.l2) * f.l5 + (2 * f.l3) * f.l4 + f.l8 * (38 * f.l9),
      (2 * f.l0) * f.l8 + (2 * f.l1) * (2 * f.l7) + (2 * f.l2) * f.l6 + (2 * f.l3) * (2 * f.l5) + f.l4 * f.l4
        + f.l9 * (38 * f.l9),
      (2 * f.l0) * f.l9 + (2 * f.l1) * f.l8 + (2 * f.l2) * f.l7 + (2 * f.l3) * f.l6 + (2 * f.l4) * f.l5)
  }

  lemma EqualProducts(f0: int, f1: int, f2: int, f3: int, f4: int, f5: int, f6: int, f7: int, f8: int, f9: int)
    ensures f0 * f0 + (2 * f1) * (38 * f9) + (2 * f2) * (19 * f8) + (2 * f3) * (38 * f7) + (2 * f4) * (19 * f6)
      + f5 * (38 * f5)
      == f0 * f0 + (2 * f1) * (19 * f9) + f2 * (19 * f8) + (2 * f3) * (19 * f7) + f4 * (19 * f6)
        + (2 * f5) * (19 * f5) + f6 * (19 * f4) + (2 * f7) * (19 * f3) + f8 * (19 * f2) + (2 * f9) * (19 * f1)
    ensures (2 * f0) * f1 + f2 * (38 * f9) + (2 * f3) * (19 * f8) + f4 * (38 * f7) + (2 * f5) * (19 * f6)
      == f0 * f1 + f1 * f0 + f2 * (19 * f9) + f3 * (19 * f8) + f4 * (19 * f7) + f5 * (19 * f6) + f6 * (19 * f5)
        + f7 * (19 * f4) + f8 * (19 * f3) + f9 * (19 * f2)
    ensures (2 * f0) * f2 + (2 * f1) * f1 + (2 * f3) * (38 * f9) + (2 * f4) * (19 * f8) + (2 * f5) * (38 * f7)
      + f6 * (19 * f6)
      == f0 * f2 + (2 * f1) * f1 + f2 * f0 + (2 * f3) * (19 * f9) + f4 * (19 * f8) + (2 * f5) * (19 * f7)
        + f6 * (19 * f6) + (2 * f7) * (19 * f5) + f8 * (19 * f4) + (2 * f9) * (19 * f3)
    ensures (2 * f0) * f3 + (2 * f1) * f2 + f4 * (38 * f9) + (2 * f5) * (19 * f8) + f6 * (38 * f7)
      == f0 * f3 + f1 * f2 + f2 * f1 + f3 * f0 + f4 * (19 * f9) + f5 * (19 * f8) + f6 * (19 * f7) + f7 * (19 * f6)
        + f8 * (19 * f5) + f9 * (19 * f4)
    ensures (2 * f0) * f4 + (2 * f1) * (2 * f3) + f2 * f2 + (2 * f5) * (38 * f9) + (2 * f6) * (19 * f8) + f7 * (38 * f7)
      == f0 * f4 + (2 * f1) * f3 + f2 * f2 + (2 * f3) * f1 + f4 * f0 + (2 * f5) * (19 * f9) + f6 * (19 * f8)
        + (2 * f7) * (19 * f7) + f8 * (19 * f6) + (2 * f9) * (19 * f5)
    ensures (2 * f0) * f5 + (2 * f1) * f4 + (2 * f2) * f3 + f6 * (38 * f9) + (2 * f7) * (19 * f8)
      == f0 * f5 + f1 * f4 + f2 * f3 + f3 * f2 + f4 * f1 + f5 * f0 + f6 * (19 * f9) + f7 * (19 * f8) + f8 * (19 * f7)
        + f9 * (19 * f6)
    ensures (2 * f0) * f6 + (2 * f1) * (2 * f5) + (2 * f2) * f4 + (2 * f3) * f3 + (2 * f7) * (38 * f9) + f8 * (19 * f8)
      == f0 * f6 + (2 * f1) * f5 + f2 * f4 + (2 * f3) * f3 + f4 * f2 + (2 * f5) * f1 + f6 * f0 + (2 * f7) * (19 * f9)
        + f8 * (19 * f8) + (2 * f9) * (19 * f7)
    ensures (2 * f0) * f7 + (2 * f1) * f6 + (2 * f2) * f5 + (2 * f3) * f4 + f8 * (38 * f9)
      == f0 * f7 + f1 * f6 + f2 * f5 + f3 * f4 + f4 * f3 + f5 * f2 + f6 * f1 + f7 * f0 + f8 * (19 * f9) + f9 * (19 * f8)
    ensures (2 * f0) * f8 + (2 * f1) * (2 * f7) + (2 * f2) * f6 + (2 * f3) * (2 * f5) + f4 * f4 + f9 * (38 * f9)
      == f0 * f8 + (2 * f1) * f7 + f2 * f6 + (2 * f3) * f5 + f4 * f4 + (2 * f5) * f3 + f6 * f2 + (2 * f7) * f1
        + f8 * f0 + (2 * f9) * (19 * f9)
    ensures (2 * f0) * f9 + (2 * f1) * f8 + (2 * f2) * f7 + (2 * f3) * f6 + (2 * f4) * f5
      == f0 * f9 + f1 * f8 + f2 * f7 + f3 * f6 + f4 * f5 + f5 * f4 + f6 * f3 + f7 * f2 + f8 * f1 + f9 * f0
  {}

  /** Squaring with half the products gives the coefficients of multiplying by itself, limb for limb. */
  lemma SquareIsProduct(f: Limbs)
    ensures Square(f) == Product(f, f)
  {
    EqualProducts(f.l0, f.l1, f.l2, f.l3, f.l4, f.l5, f.l6, f.l7, f.l8, f.l9);
  }

  function Sq0(f: seq<int32>): (r: int64)
    requires Factor(f)
    ensures r as int == Square(LimbsOf(f)).l0 && -WIDE_EVEN <= 2 * r as int <= WIDE_EVEN
  {
    Times(f[0], f[0], IN_EVEN, IN_EVEN) + Times(2 * f[1], 38 * f[9], 2 * IN_ODD, 38 * IN_ODD)
    + Times(2 * f[2], 19 * f[8], 2 * IN_EVEN, 19 * IN_EVEN) + Times(2 * f[3], 38 * f[7], 2 * IN_ODD, 38 * IN_ODD)
    + Times(2 * f[4], 19 * f[6], 2 * IN_EVEN, 19 * IN_EVEN) + Times(f[5], 38 * f[5], IN_ODD, 38 * IN_ODD)
  }

  function Sq1(f: seq<int32>): (r: int64)
    requires Factor(f)
    ensures r as int == Square(LimbsOf(f)).l1 && -WIDE_ODD <= 2 * r as int <= WIDE_ODD
  {
    Times(2 * f[0], f[1], 2 * IN_EVEN, IN_ODD) + Times(f[2], 38 * f[9], IN_EVEN, 38 * IN_ODD)
    + Times(2 * f[3], 19 * f[8], 2 * IN_ODD, 19 * IN_EVEN) + Times(f[4], 38 * f[7], IN_EVEN, 38 * IN_ODD)
    + Times(2 * f[5], 19 * f[6], 2 * IN_ODD, 19 * IN_EVEN)
  }

  function Sq2(f: seq<int32>): (r: int64)
    requires Factor(f)
    ensures r as int == Square(LimbsOf(f)).l2 && -WIDE_EVEN <= 2 * r as int <= WIDE_EVEN
  {
    Times(2 * f[0], f[2], 2 * IN_EVEN, IN_EVEN) + Times(2 * f[1], f[1], 2 * IN_ODD, IN_ODD)
    + Times(2 * f[3], 38 * f[9], 2 * IN_ODD, 38 * IN_ODD) + Times(2 * f[4], 19 * f[8], 2 * IN_EVEN, 19 * IN_EVEN)
    + Times(2 * f[5], 38 * f[7], 2 * IN_ODD, 38 * IN_ODD) + Times(f[6], 19 * f[6], IN_EVEN, 19 * IN_EVEN)
  }

  function Sq3(f: seq<int32>): (r: int64)
    requires Factor(f)
    ensures r as int == Square(LimbsOf(f)).l3 && -WIDE_ODD <= 2 * r as int <= WIDE_ODD
  {
    Times(2 * f[0], f[3], 2 * IN_EVEN, IN_ODD) + Times(2 * f[1], f[2], 2 * IN_ODD, IN_EVEN)
    + Times(f[4], 38 * f[9], IN_EVEN, 38 * IN_ODD) + Times(2 * f[5], 19 * f[8], 2 * IN_ODD, 19 * IN_EVEN)
    + Times(f[6], 38 * f[7], IN_EVEN, 38 * IN_ODD)
  }

  function Sq4(f: seq<int32>): (r: int64)
    requires Factor(f)
    ensures r as int == Square(LimbsOf(f)).l4 && -WIDE_EVEN <= 2 * r as int <= WIDE_EVEN
  {
    Times(2 * f[0], f[4], 2 * IN_EVEN, IN_EVEN) + Times(2 * f[1], 2 * f[3], 2 * IN_ODD, 2 * IN_ODD)
    + Times(f[2], f[2], IN_EVEN, IN_EVEN) + Times(2 * f[5], 38 * f[9], 2 * IN_ODD, 38 * IN_ODD)
    + Times(2 * f[6], 19 * f[8], 2 * IN_EVEN, 19 * IN_EVEN) + Times(f[7], 38 * f[7], IN_ODD, 38 * IN_ODD)
  }

  function Sq5(f: seq<int32>): (r: int64)
    requires Factor(f)
    ensures r as int == Square(LimbsOf(f)).l5 && -WIDE_ODD <= 2 * r as int <= WIDE_ODD
  {
    Times(2 * f[0], f[5], 2 * IN_EVEN, IN_ODD) + Times(2 * f[1], f[4], 2 * IN_ODD, IN_EVEN)
    + Times(2 * f[2], f[3], 2 * IN_EVEN, IN_ODD) + Times(f[6], 38 * f[9], IN_EVEN, 38 * IN_ODD)
    + Times(2 * f[7], 19 * f[8], 2 * IN_ODD, 19 * IN_EVEN)
  }

  function Sq6(f: seq<int32>): (r: int64)
    requires Factor(f)
    ensures r as int == Square(LimbsOf(f)).l6 && -WIDE_EVEN <= 2 * r as int <= WIDE_EVEN
  {
    Times(2 * f[0], f[6], 2 * IN_EVEN, IN_EVEN) + Times(2 * f[1], 2 * f[5], 2 * IN_ODD, 2 * IN_ODD)
    + Times(2 * f[2], f[4], 2 * IN_EVEN, IN_EVEN) + Times(2 * f[3], f[3], 2 * IN_ODD, IN_ODD)
    + Times(2 * f[7], 38 * f[9], 2 * IN_ODD, 38 * IN_ODD) + Times(f[8], 19 * f[8], IN_EVEN, 19 * IN_EVEN)
  }

  function Sq7(f: seq<int32>): (r: int64)
    requires Factor(f)
    ensures r as int == Square(LimbsOf(f)).l7 && -WIDE_ODD <= 2 * r as int <= WIDE_ODD
  {
    Times(2 * f[0], f[7], 2 * IN_EVEN, IN_ODD) + Times(2 * f[1], f[6], 2 * IN_ODD, IN_EVEN)
    + Times(2 * f[2], f[5], 2 * IN_EVEN, IN_ODD) + Times(2 * f[3], f[4], 2 * IN_ODD, IN_EVEN)
    + Times(f[8], 38 * f[9], IN_EVEN, 38 * IN_ODD)
  }

  function Sq8(f: seq<int32>): (r: int64)
    requires Factor(f)
    ensures r as int == Square(LimbsOf(f)).l8 && -WIDE_EVEN <= 2 * r as int <= WIDE_EVEN
  {
    Times(2 * f[0], f[8], 2 * IN_EVEN, IN_EVEN) + Times(2 * f[1], 2 * f[7], 2 * IN_ODD, 2 * IN_ODD)
    + Times(2 * f[2], f[6], 2 * IN_EVEN, IN_EVEN) + Times(2 * f[3], 2 * f[5], 2 * IN_ODD, 2 * IN_ODD)
    + Times(f[4], f[4], IN_EVEN, IN_EVEN) + Times(f[9], 38 * f[9], IN_ODD, 38 * IN_ODD)
  }

  function Sq9(f: seq<int32>): (r: int64)
    requires Factor(f)
    ensures r as int == Square(LimbsOf(f)).l9 && -WIDE_ODD <= 2 * r as int <= WIDE_ODD
  {
    Times(2 * f[0], f[9], 2 * IN_EVEN, IN_ODD) + Times(2 * f[1], f[8], 2 * IN_ODD, IN_EVEN)
    + Times(2 * f[2], f[7], 2 * IN_EVEN, IN_ODD) + Times(2 * f[3], f[6], 2 * IN_ODD, IN_EVEN)
    + Times(2 * f[4], f[5], 2 * IN_EVEN, IN_ODD)
  }

  /** h = f * f, with about half of the products of Mul. */
  method Sq(h: array<int32>, f: array<int32>)
    requires h.Length == 10 && Factor(f[..])
    modifies h
    ensures LimbsOf(h[..]) == Carried(Product(old(LimbsOf(f[..])), old(LimbsOf(f[..]))))
    ensures Within(LimbsOf(h[..]), OUT_EVEN, OUT_ODD)
  {
    hide Carried, Product, Square;
    var a := f[..];
    SquareIsProduct(LimbsOf(a));
    StoreCarried(h, Sq0(a), Sq1(a), Sq2(a), Sq3(a), Sq4(a), Sq5(a), Sq6(a), Sq7(a), Sq8(a), Sq9(a),
                 Product(LimbsOf(a), LimbsOf(a)));
  }

  /** h = 2 * f * f: every coefficient is doubled before the carries. */
  method SqDouble(h: array<int32>, f: array<int32>)
    requires h.Length == 10 && Factor(f[..])
    modifies h
    ensures var x := Product(old(LimbsOf(f[..])), old(LimbsOf(f[..]))); LimbsOf(h[..]) == Carried(Plus(x, x))
    ensures Within(LimbsOf(h[..]), OUT_EVEN, OUT_ODD)
  {
    hide Carried, Product, Square;
    var a := f[..];
    SquareIsProduct(LimbsOf(a));
    ghost var x := Product(LimbsOf(a), LimbsOf(a));
    StoreCarried(h, Sq0(a) + Sq0(a), Sq1(a) + Sq1(a), Sq2(a) + Sq2(a), Sq3(a) + Sq3(a), Sq4(a) + Sq4(a),
                 Sq5(a) + Sq5(a), Sq6(a) + Sq6(a), Sq7(a) + Sq7(a), Sq8(a) + Sq8(a), Sq9(a) + Sq9(a), Plus(x, x));
  }

  // ----------------------------------------------------------- add and subtract

  function Minus(x: Limbs, y: Limbs): Limbs {
    Limbs(x.l0 - y.l0, x.l1 - y.l1, x.l2 - y.l2, x.l3 - y.l3, x.l4 - y.l4,
          x.l5 - y.l5, x.l6 - y.l6, x.l7 - y.l7, x.l8 - y.l8, x.l9 - y.l9)
  }

  /** 1.1 * 2^25 and 1.1 * 2^24, what a term may have. */
  const TERM_EVEN := 36909875
  const TERM_ODD := 18454937

  predicate Term(s: seq<int32>) { |s| == 10 && Within(LimbsOf(s), TERM_EVEN, TERM_ODD) }

  method Add(h: array<int32>, f: array<int32>, g: array<int32>)
    requires h.Length == 10 && Term(f[..]) && Term(g[..])
    modifies h
    ensures LimbsOf(h[..]) == Plus(old(LimbsOf(f[..])), old(LimbsOf(g[..])))
    ensures Factor(h[..])
  {
    var h0, h1, h2, h3, h4 := f[0] + g[0], f[1] + g[1], f[2] + g[2], f[3] + g[3], f[4] + g[4];
    var h5, h6, h7, h8, h9 := f[5] + g[5], f[6] + g[6], f[7] + g[7], f[8] + g[8], f[9] + g[9];
    h[0], h[1], h[2], h[3], h[4], h[5], h[6], h[7], h[8], h[9] := h0, h1, h2, h3, h4, h5, h6, h7, h8, h9;
  }

  method Sub(h: array<int32>, f: array<int32>, g: array<int32>)
    requires h.Length == 10 && Term(f[..]) && Term(g[..])
    modifies h
    ensures LimbsOf(h[..]) == Minus(old(LimbsOf(f[..])), old(LimbsOf(g[..])))
    ensures Factor(h[..])
  {
    var h0, h1, h2, h3, h4 := f[0] - g[0], f[1] - g[1], f[2] - g[2], f[3] - g[3], f[4] - g[4];
    var h5, h6, h7, h8, h9 := f[5] - g[5], f[6] - g[6], f[7] - g[7], f[8] - g[8], f[9] - g[9];
    h[0], h[1], h[2], h[3], h[4], h[5], h[6], h[7], h[8], h[9] := h0, h1, h2, h3, h4, h5, h6, h7, h8, h9;
  }

  // --------------------------------------------------------------- what they mean

  /** What Mul and Sq store denotes the field product, whatever elements the factors denote. */
  lemma MulIsFieldProduct(f: Limbs, g: Limbs, a: int, b: int)
    requires Congruent(Value(f), a) && Congruent(Value(g), b)
    ensures Congruent(Value(Carried(Product(f, g))), a * b)
  {
    hide Carried, Product, Value, Quotient, Folded;
    ProductValue(f, g);
    CarriedValue(Product(f, g));
    CongruentBy(Value(Carried(Product(f, g))), Value(f) * Value(g), -Quotient(f, g) - Folded(Product(f, g)));
    CongruentProduct(Value(f), Value(g), a, b);
    CongruentTransitive(Value(Carried(Product(f, g))), Value(f) * Value(g), a * b);
  }

  /** What SqDouble stores is twice the field square. */
  lemma SqDoubleIsTwiceTheSquare(f: Limbs)
    ensures Congruent(Value(Carried(Plus(Product(f, f), Product(f, f)))), 2 * Value(f) * Value(f))
  {
    hide Carried, Product, Value, Quotient, Folded, Plus;
    var x := Product(f, f);
    ProductValue(f, f);
    PlusValue(x, x);
    CarriedValue(Plus(x, x));
    assert Value(Carried(Plus(x, x))) == 2 * (Value(f) * Value(f)) + (-2 * Quotient(f, f) - Folded(Plus(x, x))) * P;
    CongruentBy(Value(Carried(Plus(x, x))), 2 * Value(f) * Value(f), -2 * Quotient(f, f) - Folded(Plus(x, x)));
  }

  /** Sums and differences are exact, and the bounds of a product are those of a term: results feed the next
      operation. */
  lemma SumsAreExact(f: Limbs, g: Limbs)
    ensures Value(Plus(f, g)) == Value(f) + Value(g) && Value(Minus(f, g)) == Value(f) - Value(g)
    ensures Within(f, OUT_EVEN, OUT_ODD) ==> Within(f, TERM_EVEN, TERM_ODD)
  {}
}
