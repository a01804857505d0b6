/** Arithmetic modulo 2^255 - 19, the field of section 4.1 of RFC 7748. */
module Field {
  const P: int := 0x7FFFFFFF_FFFFFFFF_FFFFFFFF_FFFFFFFF_FFFFFFFF_FFFFFFFF_FFFFFFFF_FFFFFFED

  ghost predicate Congruent(a: int, b: int) {
    exists q: int :: a == b + q * P
  }

  lemma CongruentBy(a: int, b: int, q: int)
    requires a == b + q * P
    ensures Congruent(a, b)
  {}

  lemma CongruentTransitive(a: int, b: int, c: int)
    requires Congruent(a, b) && Congruent(b, c)
    ensures Congruent(a, c)
  {
    var q: int :| a == b + q * P;
    var r: int :| b == c + r * P;
    assert a == c + (q + r) * P;
  }

  lemma CongruentSymmetric(a: int, b: int)
    requires Congruent(a, b)
    ensures Congruent(b, a)
  {
    var q: int :| a == b + q * P;
    assert b == a + (-q) * P;
  }

  lemma CongruentProduct(a: int, b: int, c: int, d: int)
    requires Congruent(a, c) && Congruent(b, d)
    ensures Congruent(a * b, c * d)
  {
    var q: int :| a == c + q * P;
    var r: int :| b == d + r * P;
    assert a * b == c * d + (c * r + q * d + q * r * P) * P;
  }

  lemma CongruentDouble(a: int, b: int)
    requires Congruent(a, b)
    ensures Congruent(2 * a, 2 * b)
  {
    var q: int :| a == b + q * P;
    assert 2 * a == 2 * b + (2 * q) * P;
  }
}
