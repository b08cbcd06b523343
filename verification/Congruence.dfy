/** Congruence modulo a positive integer, with the few laws that the key algebra needs.
    Every law is proved from an explicit multiple of the modulus. */
module Congruence {

  ghost predicate Cong(a: int, b: int, m: int)
    requires m > 0
  {
    (a - b) % m == 0
  }

  lemma ModUnique(a: int, q: int, r: int, m: int)
    requires 0 <= r < m && a == q * m + r
    ensures a % m == r && a / m == q
  {
    var q', r' := a / m, a % m;
    assert (q - q') * m == r' - r;
    assert q - q' >= 1 ==> (q - q') * m >= m;
    assert q - q' <= -1 ==> (q - q') * m <= -m;
  }

  lemma ModMultiple(k: int, m: int)
    requires m > 0
    ensures (k * m) % m == 0
  {
    ModUnique(k * m, k, 0, m);
  }

  /** The multiple of m by which two congruent numbers differ. */
  lemma Quotient(a: int, b: int, m: int) returns (k: int)
    requires m > 0 && Cong(a, b, m)
    ensures a == b + k * m
  {
    k := (a - b) / m;
  }

  lemma FromQuotient(a: int, b: int, k: int, m: int)
    requires m > 0 && a == b + k * m
    ensures Cong(a, b, m)
  {
    ModMultiple(k, m);
  }

  lemma CongMod(a: int, m: int)
    requires m > 0
    ensures Cong(a % m, a, m) && Cong(a, a % m, m)
  {
    FromQuotient(a % m, a, -(a / m), m);
    FromQuotient(a, a % m, a / m, m);
  }

  lemma CongIffMod(a: int, b: int, m: int)
    requires m > 0
    ensures Cong(a, b, m) <==> a % m == b % m
  {
    if Cong(a, b, m) {
      var k := Quotient(a, b, m);
      assert a == (b / m + k) * m + b % m;
      ModUnique(a, b / m + k, b % m, m);
    } else if a % m == b % m {
      FromQuotient(a, b, a / m - b / m, m);
    }
  }

  lemma CongTrans(a: int, b: int, c: int, m: int)
    requires m > 0 && Cong(a, b, m) && Cong(b, c, m)
    ensures Cong(a, c, m)
  {
    var k := Quotient(a, b, m);
    var l := Quotient(b, c, m);
    FromQuotient(a, c, k + l, m);
  }

  lemma CongSym(a: int, b: int, m: int)
    requires m > 0 && Cong(a, b, m)
    ensures Cong(b, a, m)
  {
    var k := Quotient(a, b, m);
    FromQuotient(b, a, -k, m);
  }

  lemma CongAdd(a: int, b: int, c: int, d: int, m: int)
    requires m > 0 && Cong(a, b, m) && Cong(c, d, m)
    ensures Cong(a + c, b + d, m) && Cong(a - c, b - d, m)
  {
    var k := Quotient(a, b, m);
    var l := Quotient(c, d, m);
    FromQuotient(a + c, b + d, k + l, m);
    FromQuotient(a - c, b - d, k - l, m);
  }

  lemma CongMul(a: int, b: int, c: int, d: int, m: int)
    requires m > 0 && Cong(a, b, m) && Cong(c, d, m)
    ensures Cong(a * c, b * d, m)
  {
    var k := Quotient(a, b, m);
    var l := Quotient(c, d, m);
    assert a * c == b * d + (b * l + k * d + k * l * m) * m;
    FromQuotient(a * c, b * d, b * l + k * d + k * l * m, m);
  }

  /** Multiplying both sides by the same factor. */
  lemma CongScale(f: int, a: int, b: int, m: int)
    requires m > 0 && Cong(a, b, m)
    ensures Cong(f * a, f * b, m)
  {
    var k := Quotient(a, b, m);
    assert f * a == f * b + (f * k) * m;
    FromQuotient(f * a, f * b, f * k, m);
  }

  /** Reduced residues that are congruent are equal. */
  lemma CongReduced(a: int, b: int, m: int)
    requires 0 <= a < m && 0 <= b < m && Cong(a, b, m)
    ensures a == b
  {
    CongIffMod(a, b, m);
    ModUnique(a, 0, a, m);
    ModUnique(b, 0, b, m);
  }
}
