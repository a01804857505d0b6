/** Field elements as five unsigned limbs of 51 bits in 64-bit words, with 128-bit products. */
module Limbs51 {
  import opened Field
  import L25 = Limbs25

  newtype uint64 = x: int | 0 <= x < 0x1_0000_0000_0000_0000
  newtype uint128 = x: int | 0 <= x < 0x1_0000_0000_0000_0000_0000_0000_0000_0000

  datatype Limbs = Limbs(l0: int, l1: int, l2: int, l3: int, l4: int)

  const B51: int := 0x8_0000_0000_0000
  const B54: int := 0x40_0000_0000_0000
  const B64: int := 0x1_0000_0000_0000_0000
  const W2: int := 0x40_0000_0000_0000_0000_0000_0000
  const W3: int := 0x200_0000_0000_0000_0000_0000_0000_0000_0000_0000
  const W4: int := 0x1000_0000_0000_0000_0000_0000_0000_0000_0000_0000_0000_0000_0000

  /** The integer that digits stand for in base 2^51, the lowest first. */
  function Positional(digits: seq<int>): int {
    if digits == [] then 0 else digits[0] + B51 * Positional(digits[1..])
  }

  function Value(x: Limbs): int { Positional([x.l0, x.l1, x.l2, x.l3, x.l4]) }

  lemma ValueIs(x: Limbs)
    ensures Value(x) == x.l0 + B51 * x.l1 + W2 * x.l2 + W3 * x.l3 + W4 * x.l4
  {
    assert [x.l4][1..] == [] && [x.l3, x.l4][1..] == [x.l4] && [x.l2, x.l3, x.l4][1..] == [x.l3, x.l4];
    assert [x.l1, x.l2, x.l3, x.l4][1..] == [x.l2, x.l3, x.l4]
      && [x.l0, x.l1, x.l2, x.l3, x.l4][1..] == [x.l1, x.l2, x.l3, x.l4];
    assert Positional([x.l4]) == x.l4;
    assert Positional([x.l3, x.l4]) == x.l3 + B51 * x.l4;
    assert Positional([x.l2, x.l3, x.l4]) == x.l2 + B51 * x.l3 + W2 * x.l4;
    assert Positional([x.l1, x.l2, x.l3, x.l4]) == x.l1 + B51 * x.l2 + W2 * x.l3 + W3 * x.l4;
  }

  predicate Below(x: Limbs, b: int) {
    0 <= x.l0 < b && 0 <= x.l1 < b && 0 <= x.l2 < b && 0 <= x.l3 < b && 0 <= x.l4 < b
  }

  /** The five coefficients of the schoolbook product, folded by 19. */
  function Product(f: Limbs, g: Limbs): Limbs {
    Limbs(
      f.l0 * g.l0 + (19 * f.l1) * g.l4 + (19 * f.l2) * g.l3 + (19 * f.l3) * g.l2 + (19 * f.l4) * g.l1,
      f.l0 * g.l1 + f.l1 * g.l0 + (19 * f.l2) * g.l4 + (19 * f.l3) * g.l3 + (19 * f.l4) * g.l2,
      f.l0 * g.l2 + f.l1 * g.l1 + f.l2 * g.l0 + (19 * f.l3) * g.l4 + (19 * f.l4) * g.l3,
      f.l0 * g.l3 + f.l1 * g.l2 + f.l2 * g.l1 + f.l3 * g.l0 + (19 * f.l4) * g.l4,
      f.l0 * g.l4 + f.l1 * g.l3 + f.l2 * g.l2 + f.l3 * g.l1 + f.l4 * g.l0)
  }

  function Quotient(f: Limbs, g: Limbs): int {
    f.l1 * g.l4 + f.l2 * g.l3 + f.l3 * g.l2 + f.l4 * g.l1
    + B51 * (f.l2 * g.l4 + f.l3 * g.l3 + f.l4 * g.l2)
    + W2 * (f.l3 * g.l4 + f.l4 * g.l3)
    + W3 * (f.l4 * g.l4)
  }

  lemma Distribute(c: int, x: Limbs)
    ensures c * Value(x) == c * x.l0 + B51 * (c * x.l1) + W2 * (c * x.l2) + W3 * (c * x.l3) + W4 * (c * x.l4)
  {
    hide Value;
    ValueIs(x);
  }

  /** The folded coefficients from the twenty-five products: all that is left is linear. */
  lemma FoldedRows(p00: int, p01: int, p02: int, p03: int, p04: int,
      p10: int, p11: int, p12: int, p13: int, p14: int,
      p20: int, p21: int, p22: int, p23: int, p24: int,
      p30: int, p31: int, p32: int, p33: int, p34: int,
      p40: int, p41: int, p42: int, p43: int, p44: int)
    ensures (p00 + 19 * p14 + 19 * p23 + 19 * p32 + 19 * p41)
      + B51 * (p01 + p10 + 19 * p24 + 19 * p33 + 19 * p42)
      + W2 * (p02 + p11 + p20 + 19 * p34 + 19 * p43)
      + W3 * (p03 + p12 + p21 + p30 + 19 * p44)
      + W4 * (p04 + p13 + p22 + p31 + p40)
      == (p00 + B51 * p01 + W2 * p02 + W3 * p03 + W4 * p04)
      + B51 * (p10 + B51 * p11 + W2 * p12 + W3 * p13 + W4 * p14)
      + W2 * (p20 + B51 * p21 + W2 * p22 + W3 * p23 + W4 * p24)
      + W3 * (p30 + B51 * p31 + W2 * p32 + W3 * p33 + W4 * p34)
      + W4 * (p40 + B51 * p41 + W2 * p42 + W3 * p43 + W4 * p44)
      - ((p14 + p23 + p32 + p41) + B51 * (p24 + p33 + p42) + W2 * (p34 + p43) + W3 * (p44)) * P
  {}

  lemma ProductTerms(f: Limbs, g: Limbs)
    ensures Product(f, g) == Limbs(
      f.l0 * g.l0 + 19 * (f.l1 * g.l4) + 19 * (f.l2 * g.l3) + 19 * (f.l3 * g.l2) + 19 * (f.l4 * g.l1),
      f.l0 * g.l1 + f.l1 * g.l0 + 19 * (f.l2 * g.l4) + 19 * (f.l3 * g.l3) + 19 * (f.l4 * g.l2),
      f.l0 * g.l2 + f.l1 * g.l1 + f.l2 * g.l0 + 19 * (f.l3 * g.l4) + 19 * (f.l4 * g.l3),
      f.l0 * g.l3 + f.l1 * g.l2 + f.l2 * g.l1 + f.l3 * g.l0 + 19 * (f.l4 * g.l4),
      f.l0 * g.l4 + f.l1 * g.l3 + f.l2 * g.l2 + f.l3 * g.l1 + f.l4 * g.l0)
  {
    Nineteen(f.l1, g.l4);
    Nineteen(f.l2, g.l3);
    Nineteen(f.l3, g.l2);
    Nineteen(f.l4, g.l1);
    Nineteen(f.l2, g.l4);
    Nineteen(f.l3, g.l3);
    Nineteen(f.l4, g.l2);
    Nineteen(f.l3, g.l4);
    Nineteen(f.l4, g.l3);
    Nineteen(f.l4, g.l4);
  }

  lemma Nineteen(a: int, b: int)
    ensures (19 * a) * b == 19 * (a * b)
  {}

  lemma ProductValue(f: Limbs, g: Limbs)
    ensures Value(Product(f, g)) == Value(f) * Value(g) - Quotient(f, g) * P
  {
    hide Value, Product;
    ProductTerms(f, g);
    ValueIs(Product(f, g));
    Distribute(Value(g), f);
    Distribute(f.l0, g);
    Distribute(f.l1, g);
    Distribute(f.l2, g);
    Distribute(f.l3, g);
    Distribute(f.l4, g);
    FoldedRows(f.l0 * g.l0, f.l0 * g.l1, f.l0 * g.l2, f.l0 * g.l3, f.l0 * g.l4,
      f.l1 * g.l0, f.l1 * g.l1, f.l1 * g.l2, f.l1 * g.l3, f.l1 * g.l4,
      f.l2 * g.l0, f.l2 * g.l1, f.l2 * g.l2, f.l2 * g.l3, f.l2 * g.l4,
      f.l3 * g.l0, f.l3 * g.l1, f.l3 * g.l2, f.l3 * g.l3, f.l3 * g.l4,
      f.l4 * g.l0, f.l4 * g.l1, f.l4 * g.l2, f.l4 * g.l3, f.l4 * g.l4);
  }

  /** The coefficients as fe25519_sq computes them. */
  function Square(f: Limbs): Limbs {
    Limbs(
      f.l0 * f.l0 + (38 * f.l1) * f.l4 + (38 * f.l2) * f.l3,
      (2 * f.l0) * f.l1 + (38 * f.l2) * f.l4 + (19 * f.l3) * f.l3,
      (2 * f.l0) * f.l2 + f.l1 * f.l1 + (38 * f.l3) * f.l4,
      (2 * f.l0) * f.l3 + (2 * f.l1) * f.l2 + (19 * f.l4) * f.l4,
      (2 * f.l0) * f.l4 + (2 * f.l1) * f.l3 + f.l2 * f.l2)
  }

  lemma EqualProducts(a: int, b: int, c: int, d: int, e: int)
    ensures a * a + (38 * b) * e + (38 * c) * d == a * a + (19 * b) * e + (19 * c) * d + (19 * d) * c + (19 * e) * b
    ensures (2 * a) * b + (38 * c) * e + (19 * d) * d == a * b + b * a + (19 * c) * e + (19 * d) * d + (19 * e) * c
    ensures (2 * a) * c + b * b + (38 * d) * e == a * c + b * b + c * a + (19 * d) * e + (19 * e) * d
    ensures (2 * a) * d + (2 * b) * c + (19 * e) * e == a * d + b * c + c * b + d * a + (19 * e) * e
    ensures (2 * a) * e + (2 * b) * d + c * c == a * e + b * d + c * c + d * b + e * a
  {}

  /** Computing equal products once and doubling them gives the coefficients of multiplying by itself. */
  lemma SquareIsProduct(f: Limbs)
    ensures Square(f) == Product(f, f)
  {
    EqualProducts(f.l0, f.l1, f.l2, f.l3, f.l4);
  }

  function Twice(x: Limbs): Limbs { Limbs(2 * x.l0, 2 * x.l1, 2 * x.l2, 2 * x.l3, 2 * x.l4) }

  // ------------------------------------------------------------ the carry chain

  /** Carries through digits in base 2^51: the carry out of the last one, and what stays. */
  function Propagate(digits: seq<int>, carry: int): (r: (int, seq<int>))
    ensures |r.1| == |digits|
  {
    if digits == [] then (carry, [])
    else
      var t := digits[0] + carry;
      var rest := Propagate(digits[1..], t / B51);
      (rest.0, [t % B51] + rest.1)
  }

  /** The coefficients after the carries that go upwards. */
  function Upward(r: Limbs): (int, Limbs) {
    var c := Propagate([r.l0, r.l1, r.l2, r.l3, r.l4], 0);
    (c.0, Limbs(c.1[0], c.1[1], c.1[2], c.1[3], c.1[4]))
  }

  lemma PropagateStep(digits: seq<int>, rest: seq<int>, carry: int)
    requires digits != [] && rest == digits[1..]
    ensures var t := digits[0] + carry;
      Propagate(digits, carry) == (Propagate(rest, t / B51).0, [t % B51] + Propagate(rest, t / B51).1)
  {}

  lemma UpwardIs(r: Limbs)
    ensures var r1 := r.l1 + r.l0 / B51; var r2 := r.l2 + r1 / B51; var r3 := r.l3 + r2 / B51;
      var r4 := r.l4 + r3 / B51;
      Upward(r) == (r4 / B51, Limbs(r.l0 % B51, r1 % B51, r2 % B51, r3 % B51, r4 % B51))
  {
    var r1 := r.l1 + r.l0 / B51;
    var r2 := r.l2 + r1 / B51;
    var r3 := r.l3 + r2 / B51;
    var r4 := r.l4 + r3 / B51;
    var d4, d3, d2, d1, d0 := [r.l4], [r.l3, r.l4], [r.l2, r.l3, r.l4], [r.l1, r.l2, r.l3, r.l4],
      [r.l0, r.l1, r.l2, r.l3, r.l4];
    PropagateStep(d4, [], r3 / B51);
    PropagateStep(d3, d4, r2 / B51);
    PropagateStep(d2, d3, r1 / B51);
    PropagateStep(d1, d2, r.l0 / B51);
    PropagateStep(d0, d1, 0);
    hide Propagate;
    assert Propagate(d0, 0).1 == [r.l0 % B51, r1 % B51, r2 % B51, r3 % B51, r4 % B51];
  }

  /** The lowest word while the top carry comes back into it: this is where a word can overflow. */
  function Lowest(r: Limbs): int { Upward(r).1.l0 + 19 * Upward(r).0 }

  /** The rest of the chain, from a value of the lowest word. */
  function Settle(x: Limbs, lowest: int): Limbs {
    var r01 := x.l1 + lowest / B51;
    Limbs(lowest % B51, r01 % B51, x.l2 + r01 / B51, x.l3, x.l4)
  }

  function Carried(r: Limbs): Limbs { Settle(Upward(r).1, Lowest(r)) }

  lemma UpwardValue(r: Limbs)
    ensures Value(Upward(r).1) == Value(r) - Upward(r).0 * (P + 19)
  {
    hide Value, Upward;
    UpwardIs(r);
    ValueIs(r);
    ValueIs(Upward(r).1);
  }

  lemma SettleValue(x: Limbs, lowest: int)
    ensures Value(Settle(x, lowest)) == Value(x) + lowest - x.l0
  {
    hide Value;
    ValueIs(x);
    ValueIs(Settle(x, lowest));
  }

  lemma CarriedValue(r: Limbs)
    ensures Value(Carried(r)) == Value(r) - Upward(r).0 * P
  {
    hide Upward, Settle, Value;
    UpwardValue(r);
    SettleValue(Upward(r).1, Lowest(r));
  }

  /** The limbs of a result are at most 2^51. */
  lemma CarriedBounds(x: Limbs, lowest: int)
    requires Below(x, B51) && 0 <= lowest < B64
    ensures Below(Settle(x, lowest), B51 + 1)
  {}

  lemma UpwardBounds(r: Limbs, b: int)
    requires Below(r, 0x10_0000_0000_0000 * B64) && r.l4 <= b
    ensures Below(Upward(r).1, B51) && 0 <= Upward(r).0 <= (b + 0x4_0000_0000_0000_0000) / B51
  {
    hide Upward;
    UpwardIs(r);
  }

  // ------------------------------------------------------------ machine words

  function LimbsOf(s: seq<uint64>): Limbs
    requires |s| == 5
  {
    Limbs(s[0] as int, s[1] as int, s[2] as int, s[3] as int, s[4] as int)
  }

  predicate Factor(s: seq<uint64>) { |s| == 5 && Below(LimbsOf(s), B54) }

  /** A 64 by 64 bit product in 128 bits, with a bound known from bounds on the factors. */
  function Times(a: uint64, b: uint64, ghost m: int, ghost n: int): (r: uint128)
    requires a as int < m && b as int < n && m * n < B64 * B64
    ensures r as int == a as int * b as int && r as int <= m * n
  {
    ProductBound(a as int, b as int, m, n);
    a as uint128 * b as uint128
  }

  lemma ProductBound(a: int, b: int, m: int, n: int)
    requires 0 <= a < m && 0 <= b < n
    ensures 0 <= a * b <= m * n
  {
    assert a * b <= m * b <= m * n;
  }

  /** The words that end every multiplication. The sum in the lowest word is taken modulo 2^64. */
  function Stored(r: Limbs): Limbs { Settle(Upward(r).1, Lowest(r) % B64) }

  method CarryUpward(x0: uint128, x1: uint128, x2: uint128, x3: uint128, x4: uint128, ghost r: Limbs)
    returns (r00: uint64, r01: uint64, r02: uint64, r03: uint64, r04: uint64, carry: uint128)
    requires r == Limbs(x0 as int, x1 as int, x2 as int, x3 as int, x4 as int) && Below(r, 0x10_0000_0000_0000 * B64)
    ensures Upward(r) == (carry as int, Limbs(r00 as int, r01 as int, r02 as int, r03 as int, r04 as int))
  {
    hide Upward;
    UpwardIs(r);
    var r1, r2, r3, r4 := x1, x2, x3, x4;
    r00 := (x0 % 0x8_0000_0000_0000) as uint64;
    carry := x0 / 0x8_0000_0000_0000;
    r1 := r1 + carry;
    r01 := (r1 % 0x8_0000_0000_0000) as uint64;
    carry := r1 / 0x8_0000_0000_0000;
    r2 := r2 + carry;
    r02 := (r2 % 0x8_0000_0000_0000) as uint64;
    carry := r2 / 0x8_0000_0000_0000;
    r3 := r3 + carry;
    r03 := (r3 % 0x8_0000_0000_0000) as uint64;
    carry := r3 / 0x8_0000_0000_0000;
    r4 := r4 + carry;
    r04 := (r4 % 0x8_0000_0000_0000) as uint64;
    carry := r4 / 0x8_0000_0000_0000;
  }

  method StoreCarried(h: array<uint64>, x0: uint128, x1: uint128, x2: uint128, x3: uint128, x4: uint128, ghost r: Limbs)
    requires h.Length == 5 && r == Limbs(x0 as int, x1 as int, x2 as int, x3 as int, x4 as int)
    requires Below(r, 0x10_0000_0000_0000 * B64) && r.l4 <= 10 * B54 * B54
    modifies h
    ensures LimbsOf(h[..]) == Stored(r) && Below(LimbsOf(h[..]), B51 + 1)
  {
    hide Upward;
    UpwardBounds(r, 10 * B54 * B54);
    CarriedBounds(Upward(r).1, Lowest(r) % B64);
    var r00, r01, r02, r03, r04, carry := CarryUpward(x0, x1, x2, x3, x4, r);
    r00 := ((r00 as int + 19 * (carry as int)) % B64) as uint64;
    var c := r00 / 0x8_0000_0000_0000;
    r00 := r00 % 0x8_0000_0000_0000;
    r01 := r01 + c;
    c := r01 / 0x8_0000_0000_0000;
    r01 := r01 % 0x8_0000_0000_0000;
    r02 := r02 + c;
    h[0], h[1], h[2], h[3], h[4] := r00, r01, r02, r03, r04;
  }

  /** h = f * g. The output may be one of the inputs. */
  method Mul(h: array<uint64>, f: array<uint64>, g: array<uint64>)
    requires h.Length == 5 && Factor(f[..]) && Factor(g[..])
    modifies h
    ensures LimbsOf(h[..]) == Carried(Product(old(LimbsOf(f[..])), old(LimbsOf(g[..]))))
    ensures Below(LimbsOf(h[..]), B51 + 1)
  {
    hide Stored, Upward, Settle;
    ghost var r := Product(LimbsOf(f[..]), LimbsOf(g[..]));
    var f0, f1, f2, f3, f4 := f[0], f[1], f[2], f[3], f[4];
    var g0, g1, g2, g3, g4 := g[0], g[1], g[2], g[3], g[4];
    var f1_19, f2_19, f3_19, f4_19 := 19 * f1, 19 * f2, 19 * f3, 19 * f4;
    ghost var w := 19 * B54;
    var r0 := Times(f0, g0, B54, B54) + Times(f1_19, g4, w, B54) + Times(f2_19, g3, w, B54) + Times(f3_19, g2, w, B54)
      + Times(f4_19, g1, w, B54);
    var r1 := Times(f0, g1, B54, B54) + Times(f1, g0, B54, B54) + Times(f2_19, g4, w, B54) + Times(f3_19, g3, w, B54)
      + Times(f4_19, g2, w, B54);
    var r2 := Times(f0, g2, B54, B54) + Times(f1, g1, B54, B54) + Times(f2, g0, B54, B54) + Times(f3_19, g4, w, B54)
      + Times(f4_19, g3, w, B54);
    var r3 := Times(f0, g3, B54, B54) + Times(f1, g2, B54, B54) + Times(f2, g1, B54, B54) + Times(f3, g0, B54, B54)
      + Times(f4_19, g4, w, B54);
    var r4 := Times(f0, g4, B54, B54) + Times(f1, g3, B54, B54) + Times(f2, g2, B54, B54) + Times(f3, g1, B54, B54)
      + Times(f4, g0, B54, B54);
    LowestFits(r);
    StoreCarried(h, r0, r1, r2, r3, r4, r);
  }

  /** A last coefficient of at most five products leaves room in the lowest word. */
  lemma LowestFits(r: Limbs)
    requires Below(r, 0x10_0000_0000_0000 * B64) && r.l4 <= 5 * B54 * B54
    ensures Lowest(r) < B64 && Stored(r) == Carried(r)
  {
    hide Upward, Settle;
    UpwardBounds(r, 5 * B54 * B54);
  }

  datatype Words = Words(r0: uint128, r1: uint128, r2: uint128, r3: uint128, r4: uint128)

  /** The five sums that fe25519_sq and fe25519_sq2 start with. */
  method SquareSums(f: array<uint64>) returns (r: Words)
    requires Factor(f[..])
    ensures Limbs(r.r0 as int, r.r1 as int, r.r2 as int, r.r3 as int, r.r4 as int) == Square(LimbsOf(f[..]))
    ensures Below(Square(LimbsOf(f[..])), 0x8_0000_0000_0000 * B64) && r.r4 as int <= 5 * B54 * B54
  {
    var f0, f1, f2, f3, f4 := f[0], f[1], f[2], f[3], f[4];
    var f0_2, f1_2 := 2 * f0, 2 * f1;
    var f1_38, f2_38, f3_38 := 38 * f1, 38 * f2, 38 * f3;
    var f3_19, f4_19 := 19 * f3, 19 * f4;
    ghost var d, w, v := 2 * B54, 19 * B54, 38 * B54;
    var r0 := Times(f0, f0, B54, B54) + Times(f1_38, f4, v, B54) + Times(f2_38, f3, v, B54);
    var r1 := Times(f0_2, f1, d, B54) + Times(f2_38, f4, v, B54) + Times(f3_19, f3, w, B54);
    var r2 := Times(f0_2, f2, d, B54) + Times(f1, f1, B54, B54) + Times(f3_38, f4, v, B54);
    var r3 := Times(f0_2, f3, d, B54) + Times(f1_2, f2, d, B54) + Times(f4_19, f4, w, B54);
    var r4 := Times(f0_2, f4, d, B54) + Times(f1_2, f3, d, B54) + Times(f2, f2, B54, B54);
    r := Words(r0, r1, r2, r3, r4);
  }

  /** h = f * f. */
  method Sq(h: array<uint64>, f: array<uint64>)
    requires h.Length == 5 && Factor(f[..])
    modifies h
    ensures LimbsOf(h[..]) == Carried(Product(old(LimbsOf(f[..])), old(LimbsOf(f[..]))))
    ensures Below(LimbsOf(h[..]), B51 + 1)
  {
    hide Stored, Upward, Settle, Square, Product;
    ghost var a := LimbsOf(f[..]);
    var r := SquareSums(f);
    LowestFits(Square(a));
    SquareIsProduct(a);
    StoreCarried(h, r.r0, r.r1, r.r2, r.r3, r.r4, Square(a));
  }

  /** h = 2 * f * f, as far as the lowest word does not overflow. */
  method Sq2(h: array<uint64>, f: array<uint64>)
    requires h.Length == 5 && Factor(f[..])
    modifies h
    ensures LimbsOf(h[..]) == Stored(Twice(Square(old(LimbsOf(f[..])))))
    ensures Below(LimbsOf(h[..]), B51 + 1)
  {
    hide Stored, Upward, Settle, Square, Product;
    ghost var a := LimbsOf(f[..]);
    var r := SquareSums(f);
    StoreCarried(h, 2 * r.r0, 2 * r.r1, 2 * r.r2, 2 * r.r3, 2 * r.r4, Twice(Square(a)));
  }

  method Add(h: array<uint64>, f: array<uint64>, g: array<uint64>)
    requires h.Length == 5 && Factor(f[..]) && Factor(g[..])
    modifies h
    ensures var a, b := old(LimbsOf(f[..])), old(LimbsOf(g[..]));
      LimbsOf(h[..]) == Limbs(a.l0 + b.l0, a.l1 + b.l1, a.l2 + b.l2, a.l3 + b.l3, a.l4 + b.l4)
  {
    var h0, h1, h2, h3, h4 := f[0] + g[0], f[1] + g[1], f[2] + g[2], f[3] + g[3], f[4] + g[4];
    h[0], h[1], h[2], h[3], h[4] := h0, h1, h2, h3, h4;
  }

  /** The subtrahend after its carries, and the result: f + 2p minus that. */
  function Reduced(g: Limbs): Limbs {
    var x := Upward(g);
    x.1.(l0 := Lowest(g))
  }

  function Difference(f: Limbs, g: Limbs): Limbs {
    var x := Reduced(g);
    Limbs(f.l0 + 0xFFFFF_FFFFFFDA - x.l0, f.l1 + 0xFFFFF_FFFFFFFE - x.l1, f.l2 + 0xFFFFF_FFFFFFFE - x.l2,
          f.l3 + 0xFFFFF_FFFFFFFE - x.l3, f.l4 + 0xFFFFF_FFFFFFFE - x.l4)
  }

  /** The five carries on the subtrahend. */
  method Reduce(g: array<uint64>) returns (h0: uint64, h1: uint64, h2: uint64, h3: uint64, h4: uint64)
    requires Factor(g[..])
    ensures Limbs(h0 as int, h1 as int, h2 as int, h3 as int, h4 as int) == Reduced(LimbsOf(g[..]))
    ensures h0 < 0xFFFFF_FFFFFFDA && h1 < 0x8_0000_0000_0000 && h2 < 0x8_0000_0000_0000 && h3 < 0x8_0000_0000_0000
      && h4 < 0x8_0000_0000_0000
  {
    hide Upward;
    UpwardIs(LimbsOf(g[..]));
    h0, h1, h2, h3, h4 := g[0], g[1], g[2], g[3], g[4];
    h1 := h1 + h0 / 0x8_0000_0000_0000;
    h0 := h0 % 0x8_0000_0000_0000;
    h2 := h2 + h1 / 0x8_0000_0000_0000;
    h1 := h1 % 0x8_0000_0000_0000;
    h3 := h3 + h2 / 0x8_0000_0000_0000;
    h2 := h2 % 0x8_0000_0000_0000;
    h4 := h4 + h3 / 0x8_0000_0000_0000;
    h3 := h3 % 0x8_0000_0000_0000;
    h0 := h0 + 19 * (h4 / 0x8_0000_0000_0000);
    h4 := h4 % 0x8_0000_0000_0000;
  }

  /** h = f - g. No word underflows, and each limb grows by less than 2^52. */
  method Sub(h: array<uint64>, f: array<uint64>, g: array<uint64>)
    requires h.Length == 5 && Factor(f[..]) && Factor(g[..])
    modifies h
    ensures LimbsOf(h[..]) == Difference(old(LimbsOf(f[..])), old(LimbsOf(g[..])))
    ensures forall b :: Below(old(LimbsOf(f[..])), b) ==> Below(LimbsOf(h[..]), b + 2 * B51)
  {
    hide Reduced;
    var h0, h1, h2, h3, h4 := Reduce(g);
    h0 := f[0] + 0xFFFFF_FFFFFFDA - h0;
    h1 := f[1] + 0xFFFFF_FFFFFFFE - h1;
    h2 := f[2] + 0xFFFFF_FFFFFFFE - h2;
    h3 := f[3] + 0xFFFFF_FFFFFFFE - h3;
    h4 := f[4] + 0xFFFFF_FFFFFFFE - h4;
    h[0], h[1], h[2], h[3], h[4] := h0, h1, h2, h3, h4;
  }

  /** h = n * f for a 32-bit n. */
  method ScalarProduct(h: array<uint64>, f: array<uint64>, n: uint64)
    requires h.Length == 5 && Factor(f[..]) && n < 0x1_0000_0000
    modifies h
    ensures LimbsOf(h[..]) == Reduced(Scaled(old(LimbsOf(f[..])), n as int))
    ensures Below(LimbsOf(h[..]), B51 + 19 * 0x8_0001_0000)
  {
    hide Upward;
    ghost var x, m := Scaled(LimbsOf(f[..]), n as int), 0x1_0000_0000;
    var a0, a1, a2, a3, a4 := Times(f[0], n, B54, m), Times(f[1], n, B54, m), Times(f[2], n, B54, m),
      Times(f[3], n, B54, m), Times(f[4], n, B54, m);
    assert x == Limbs(a0 as int, a1 as int, a2 as int, a3 as int, a4 as int);
    hide Scaled;
    UpwardBounds(x, B54 * m);
    var h0, h1, h2, h3, h4, top := CarryUpward(a0, a1, a2, a3, a4, x);
    h0 := h0 + (top * 19) as uint64;
    h[0], h[1], h[2], h[3], h[4] := h0, h1, h2, h3, h4;
  }

  function Scaled(f: Limbs, n: int): Limbs { Limbs(f.l0 * n, f.l1 * n, f.l2 * n, f.l3 * n, f.l4 * n) }

  // --------------------------------------------------------------- what they mean

  /** Whatever elements the factors denote, the stored limbs denote their product. */
  lemma MulIsFieldProduct(f: Limbs, g: Limbs, a: int, b: int)
    requires Congruent(Value(f), a) && Congruent(Value(g), b)
    ensures Congruent(Value(Carried(Product(f, g))), a * b)
  {
    hide Carried, Product, Value, Quotient, Upward;
    ProductValue(f, g);
    CarriedValue(Product(f, g));
    CongruentBy(Value(Carried(Product(f, g))), Value(f) * Value(g), -Quotient(f, g) - Upward(Product(f, g)).0);
    CongruentProduct(Value(f), Value(g), a, b);
    CongruentTransitive(Value(Carried(Product(f, g))), Value(f) * Value(g), a * b);
  }

  lemma SubIsFieldDifference(f: Limbs, g: Limbs)
    ensures Congruent(Value(Difference(f, g)), Value(f) - Value(g))
  {
    hide Value, Upward;
    UpwardValue(g);
    ValueIs(f);
    ValueIs(Upward(g).1);
    ValueIs(Difference(f, g));
    CongruentBy(Value(Difference(f, g)), Value(f) - Value(g), 2 + Upward(g).0);
  }

  lemma NotAMultiple(m: int)
    requires 0 < m < P
    ensures !Congruent(0, m) && !Congruent(m, 0)
  {
    if Congruent(0, m) { CongruentSymmetric(0, m); }
    forall q: int ensures m != 0 + q * P {
      if q >= 1 { assert q * P >= P; } else { assert q * P <= 0; }
    }
  }

  lemma ScalarProductIsFieldMultiple(f: Limbs, n: int)
    ensures Congruent(Value(Reduced(Scaled(f, n))), n * Value(f))
  {
    hide Value, Upward;
    var x := Scaled(f, n);
    ValueIs(x);
    Distribute(n, f);
    UpwardValue(x);
    ValueIs(Upward(x).1);
    ValueIs(Reduced(x));
    CongruentBy(Value(Reduced(x)), n * Value(f), -Upward(x).0);
  }

  /** What Sq2 stores denotes twice the field square exactly when the sum in the lowest word stays below 2^64. */
  lemma Sq2IsTwiceTheSquareExactly(f: Limbs, a: int)
    requires Below(f, B54) && Congruent(Value(f), a)
    ensures Congruent(Value(Stored(Twice(Square(f)))), 2 * (a * a)) <==> Lowest(Twice(Square(f))) < B64
  {
    hide Square, Product, Value, Quotient, Upward, Settle, Lowest;
    var r, lowest, v := Twice(Square(f)), Lowest(Twice(Square(f))), Value(f) * Value(f);
    var wrapped := lowest / B64 * B64;
    SquareBounds(f);
    LowestBounds(r);
    SquareIsProduct(f);
    ProductValue(f, f);
    TwiceValue(Square(f));
    StoredValue(r);
    CongruentProduct(Value(f), Value(f), a, a);
    CongruentDouble(v, a * a);
    var q := -2 * Quotient(f, f) - Upward(r).0;
    assert Value(Stored(r)) == 2 * v - wrapped + q * P;
    if wrapped == 0 {
      CongruentBy(Value(Stored(r)), 2 * v, q);
      CongruentTransitive(Value(Stored(r)), 2 * v, 2 * (a * a));
    } else {
      NotAMultiple(wrapped);
      if Congruent(Value(Stored(r)), 2 * (a * a)) {
        CongruentSymmetric(2 * v, 2 * (a * a));
        CongruentTransitive(Value(Stored(r)), 2 * (a * a), 2 * v);
        var k: int :| Value(Stored(r)) == 2 * v + k * P;
        CongruentBy(wrapped, 0, q - k);
      }
    }
  }

  lemma SquareBounds(f: Limbs)
    requires Below(f, B54)
    ensures Below(Twice(Square(f)), 0x10_0000_0000_0000 * B64) && Square(f).l4 <= 5 * B54 * B54
  {
    var b, d, w, v := B54, 2 * B54, 19 * B54, 38 * B54;
    ProductBound(f.l0, f.l0, b, b); ProductBound(38 * f.l1, f.l4, v, b); ProductBound(38 * f.l2, f.l3, v, b);
    ProductBound(2 * f.l0, f.l1, d, b); ProductBound(38 * f.l2, f.l4, v, b); ProductBound(19 * f.l3, f.l3, w, b);
    ProductBound(2 * f.l0, f.l2, d, b); ProductBound(f.l1, f.l1, b, b); ProductBound(38 * f.l3, f.l4, v, b);
    ProductBound(2 * f.l0, f.l3, d, b); ProductBound(2 * f.l1, f.l2, d, b); ProductBound(19 * f.l4, f.l4, w, b);
    ProductBound(2 * f.l0, f.l4, d, b); ProductBound(2 * f.l1, f.l3, d, b); ProductBound(f.l2, f.l2, b, b);
  }

  lemma LowestBounds(r: Limbs)
    requires Below(r, 0x10_0000_0000_0000 * B64) && r.l4 <= 10 * B54 * B54
    ensures 0 <= Lowest(r) < 2 * B64
  {
    hide Upward;
    UpwardBounds(r, 10 * B54 * B54);
  }

  lemma TwiceValue(x: Limbs)
    ensures Value(Twice(x)) == 2 * Value(x)
  {
    hide Value;
    ValueIs(x);
    ValueIs(Twice(x));
  }

  lemma StoredValue(r: Limbs)
    ensures Value(Stored(r)) == Value(r) - Upward(r).0 * P - Lowest(r) / B64 * B64
  {
    hide Upward, Settle, Value;
    UpwardValue(r);
    SettleValue(Upward(r).1, Lowest(r) % B64);
  }

  /** Limbs below 2^53 are small enough for Sq2. */
  lemma Sq2Fits(f: Limbs)
    requires Below(f, B54 / 2)
    ensures Lowest(Twice(Square(f))) < B64
  {
    var b := B54 / 2;
    SquareBounds(f);
    ProductBound(2 * f.l0, f.l4, 2 * b, b);
    ProductBound(2 * f.l1, f.l3, 2 * b, b);
    ProductBound(f.l2, f.l2, b, b);
    UpwardBounds(Twice(Square(f)), 10 * b * b);
  }

  lemma SquareOfEqualLimbs(x: int, y: int)
    requires y == x * x
    ensures Twice(Square(Limbs(x, x, x, x, x))) == Limbs(154 * y, 118 * y, 82 * y, 46 * y, 10 * y)
  {}

  lemma UpwardCarriesLast(r: Limbs)
    requires Below(r, 0x10_0000_0000_0000 * B64)
    ensures Upward(r).0 >= r.l4 / B51 && Upward(r).1.l0 >= 0
  {
    hide Upward;
    UpwardIs(r);
  }

  /** The largest limbs below 2^54 are too large for it: the lowest word wraps and the result is not twice the
      square. */
  lemma Sq2Overflows()
    ensures var f := Limbs(B54 - 1, B54 - 1, B54 - 1, B54 - 1, B54 - 1);
      Below(f, B54) && !Congruent(Value(Stored(Twice(Square(f)))), 2 * (Value(f) * Value(f)))
  {
    hide Twice, Square, Upward, Stored, Value;
    var x := B54 - 1;
    var y := x * x;
    SquareOfEqualLimbs(x, y);
    UpwardCarriesLast(Limbs(154 * y, 118 * y, 82 * y, 46 * y, 10 * y));
    var f := Limbs(x, x, x, x, x);
    CongruentBy(Value(f), Value(f), 0);
    Sq2IsTwiceTheSquareExactly(f, Value(f));
  }

  /** The two representations multiply in the same field: factors that denote the same elements give products that
      do. */
  lemma RepresentationsAgree(f: Limbs, g: Limbs, f': L25.Limbs, g': L25.Limbs)
    requires Congruent(Value(f), L25.Value(f')) && Congruent(Value(g), L25.Value(g'))
    ensures Congruent(Value(Carried(Product(f, g))), L25.Value(L25.Carried(L25.Product(f', g'))))
  {
    hide Carried, Product, Value, L25.Carried, L25.Product, L25.Value;
    MulIsFieldProduct(f, g, L25.Value(f'), L25.Value(g'));
    CongruentBy(L25.Value(f'), L25.Value(f'), 0);
    CongruentBy(L25.Value(g'), L25.Value(g'), 0);
    L25.MulIsFieldProduct(f', g', L25.Value(f'), L25.Value(g'));
    CongruentSymmetric(L25.Value(L25.Carried(L25.Product(f', g'))), L25.Value(f') * L25.Value(g'));
    CongruentTransitive(Value(Carried(Product(f, g))), L25.Value(f') * L25.Value(g'),
                        L25.Value(L25.Carried(L25.Product(f', g'))));
  }
}
