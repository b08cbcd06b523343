/** The integers modulo a prime: inverses, Fermat's little theorem, and the quadratic
    character of 2 for primes of the form 8k + 5. */
module PrimeField {
  import opened Congruence

  ghost predicate IsPrime(p: int) {
    2 <= p && forall d {:trigger p % d} :: 2 <= d < p ==> p % d != 0
  }

  function Pow(x: int, e: nat): int {
    if e == 0 then 1 else x * Pow(x, e - 1)
  }

  lemma {:induction false} PowAdd(x: int, a: nat, b: nat)
    ensures Pow(x, a + b) == Pow(x, a) * Pow(x, b)
  {
    if a > 0 {
      PowAdd(x, a - 1, b);
      assert x * (Pow(x, a - 1) * Pow(x, b)) == (x * Pow(x, a - 1)) * Pow(x, b);
    }
  }

  lemma {:induction false} PowMul(x: int, a: nat, b: nat)
    ensures a * b >= 0 && Pow(x, a * b) == Pow(Pow(x, a), b)
  {
    if b > 0 {
      PowMul(x, a, b - 1);
      assert a * b == a + a * (b - 1);
      PowAdd(x, a, a * (b - 1));
    }
  }

  lemma Interchange(a: int, b: int, c: int, d: int)
    ensures (a * b) * (c * d) == (a * c) * (b * d)
  {
    assert (a * b) * (c * d) == a * (b * (c * d)) == a * (c * (b * d));
  }

  lemma {:induction false} PowOfProduct(x: int, y: int, e: nat)
    ensures Pow(x * y, e) == Pow(x, e) * Pow(y, e)
  {
    if e > 0 {
      PowOfProduct(x, y, e - 1);
      Interchange(x, y, Pow(x, e - 1), Pow(y, e - 1));
    }
  }

  lemma {:induction false} PowCong(x: int, y: int, e: nat, p: int)
    requires p > 0 && Cong(x, y, p)
    ensures Cong(Pow(x, e), Pow(y, e), p)
  {
    if e > 0 {
      PowCong(x, y, e - 1, p);
      CongMul(x, y, Pow(x, e - 1), Pow(y, e - 1), p);
    } else {
      FromQuotient(1, 1, 0, p);
    }
  }

  // ----- inverses -----

  /** The modular inverse, by descent on the remainder of p by a. */
  function InvReduced(a: int, p: int): (r: int)
    requires IsPrime(p) && 0 < a < p
    ensures Cong(a * r, 1, p)
    decreases a
  {
    if a == 1 then
      assert Cong(1 * 1, 1, p) by { FromQuotient(1, 1, 0, p); }
      1
    else
      var r := InvReduced(p % a, p);
      assert Cong(a * (-(p / a) * r), 1, p) by { InverseStep(a, r, p); }
      -(p / a) * r
  }

  lemma InverseStep(a: int, r: int, p: int)
    requires p > 0 && 1 < a < p && Cong((p % a) * r, 1, p)
    ensures Cong(a * (-(p / a) * r), 1, p)
  {
    var k := Quotient((p % a) * r, 1, p);
    var q := p / a;
    assert a * (-q * r) == (p - a * q) * r - r * p;
    assert p - a * q == p % a;
    assert a * (-q * r) == 1 + (k - r) * p;
    FromQuotient(a * (-q * r), 1, k - r, p);
  }

  /** The inverse in [0, p) that big.Int.ModInverse returns, for any integer not divisible by p. */
  function Inv(a: int, p: int): (r: int)
    requires IsPrime(p) && a % p != 0
    ensures 0 <= r < p && Cong(a * r, 1, p)
  {
    var r := InvReduced(a % p, p) % p;
    assert Cong(a * r, 1, p) by {
      CongMod(InvReduced(a % p, p), p);
      CongMod(a, p);
      CongMul(a, a % p, r, InvReduced(a % p, p), p);
      CongTrans(a * r, (a % p) * InvReduced(a % p, p), 1, p);
    }
    r
  }

  /** A prime divides no product of two numbers that it does not divide. */
  lemma Euclid(a: int, b: int, p: int)
    requires IsPrime(p) && (a * b) % p == 0
    ensures a % p == 0 || b % p == 0
  {
    if a % p != 0 {
      hide Cong;
      var i := Inv(a, p);
      var k := Quotient(a * i, 1, p);
      var l := a * b / p;
      EuclidAlgebra(a, b, i, k, l, p);
      ModMultiple(l * i - k * b, p);
    }
  }

  lemma EuclidAlgebra(a: int, b: int, i: int, k: int, l: int, p: int)
    requires a * i == 1 + k * p && a * b == l * p
    ensures b == (l * i - k * b) * p
  {
    assert (a * i) * b == (a * b) * i;
    assert (1 + k * p) * b == b + (k * b) * p;
    assert (l * p) * i == (l * i) * p;
  }

  /** Cancelling a factor that the prime does not divide. */
  lemma Cancel(f: int, a: int, b: int, p: int)
    requires IsPrime(p) && f % p != 0 && Cong(f * a, f * b, p)
    ensures Cong(a, b, p)
  {
    assert f * a - f * b == f * (a - b);
    Euclid(f, a - b, p);
  }

  // ----- Fermat's little theorem, through binomial coefficients -----

  function Choose(n: nat, k: nat): nat {
    if k == 0 then 1 else if n == 0 then 0 else Choose(n - 1, k) + Choose(n - 1, k - 1)
  }

  lemma {:induction false} ChooseAbove(n: nat, k: nat)
    requires k > n
    ensures Choose(n, k) == 0
  {
    if n > 0 {
      ChooseAbove(n - 1, k);
      ChooseAbove(n - 1, k - 1);
    }
  }

  lemma {:induction false} ChooseSelf(n: nat)
    ensures Choose(n, n) == 1
  {
    if n > 0 {
      ChooseSelf(n - 1);
      ChooseAbove(n - 1, n);
    }
  }

  lemma AbsorptionStep(n: int, k: int, u: int, x: int, y: int)
    requires k * u == (n - 1) * x && (k - 1) * (x + y) == (n - 1) * y
    ensures k * (u + (x + y)) == n * (x + y)
  {
    assert k * (u + (x + y)) == k * u + (k - 1) * (x + y) + (x + y);
    assert (n - 1) * x + (n - 1) * y == (n - 1) * (x + y);
  }

  lemma {:induction false} Absorption(n: nat, k: nat)
    requires n >= 1 && k >= 1
    ensures k * Choose(n, k) == n * Choose(n - 1, k - 1)
  {
    if n == 1 {
      if k > 1 { ChooseAbove(1, k); ChooseAbove(0, k - 1); }
    } else if k == 1 {
      Absorption(n - 1, 1);
    } else {
      Absorption(n - 1, k);
      Absorption(n - 1, k - 1);
      AbsorptionStep(n, k, Choose(n - 1, k), Choose(n - 2, k - 1), Choose(n - 2, k - 2));
    }
  }

  /** The first m + 1 terms of the binomial expansion of (1 + a)^n. */
  function Expansion(n: nat, m: nat, a: int): int {
    Choose(n, m) * Pow(a, m) + if m == 0 then 0 else Expansion(n, m - 1, a)
  }

  lemma ExpansionAlgebra(c: int, d: int, t: int, a: int, e: int, f: int)
    ensures (c + d) * (a * t) + (e + a * f) == c * (a * t) + e + a * (d * t + f)
  {
  }

  lemma {:induction false} ExpansionStep(n: nat, m: nat, a: int)
    requires m >= 1
    ensures Expansion(n + 1, m, a) == Expansion(n, m, a) + a * Expansion(n, m - 1, a)
  {
    var t := Pow(a, m - 1);
    if m > 1 {
      ExpansionStep(n, m - 1, a);
      ExpansionAlgebra(Choose(n, m), Choose(n, m - 1), t, a, Expansion(n, m - 1, a), Expansion(n, m - 2, a));
    } else {
      ExpansionAlgebra(Choose(n, m), Choose(n, m - 1), t, a, Expansion(n, 0, a), 0);
      assert Expansion(n + 1, 0, a) == Expansion(n, 0, a) == 1;
    }
  }

  lemma {:induction false} Binomial(n: nat, a: int)
    ensures Expansion(n, n, a) == Pow(1 + a, n)
  {
    if n > 0 {
      var e := Expansion(n - 1, n - 1, a);
      Binomial(n - 1, a);
      ExpansionStep(n - 1, n, a);
      ChooseAbove(n - 1, n);
      assert Expansion(n - 1, n, a) == 0 * Pow(a, n) + e;
      assert e + a * e == (1 + a) * e;
    }
  }

  lemma ChooseDivisible(p: int, m: int)
    requires IsPrime(p) && 0 < m < p
    ensures Cong(Choose(p, m), 0, p)
  {
    Absorption(p, m);
    hide Choose, Cong, IsPrime;
    DivisibleFactor(m, Choose(p, m), Choose(p - 1, m - 1), p);
  }

  lemma DivisibleFactor(m: int, c: int, e: int, p: int)
    requires IsPrime(p) && 0 < m < p && m * c == e * p
    ensures Cong(c, 0, p)
  {
    ModMultiple(e, p);
    ModUnique(m, 0, m, p);
    Euclid(m, c, p);
  }

  lemma {:induction false} MiddleTermsVanish(p: int, m: nat, a: int)
    requires IsPrime(p) && m < p
    ensures Cong(Expansion(p, m, a), 1, p)
  {
    if m == 0 {
      FromQuotient(1, 1, 0, p);
    } else {
      MiddleTermsVanish(p, m - 1, a);
      Absorption(p, m);
      ChooseDivisible(p, m);
      CongScale(Pow(a, m), Choose(p, m), 0, p);
      CongAdd(Choose(p, m) * Pow(a, m), 0, Expansion(p, m - 1, a), 1, p);
    }
  }

  lemma {:induction false} PowerIsIdentity(p: int, a: nat)
    requires IsPrime(p)
    ensures Cong(Pow(a, p), a, p)
  {
    if a == 0 {
      FromQuotient(0, 0, 0, p);
    } else {
      PowerIsIdentity(p, a - 1);
      Binomial(p, a - 1);
      ChooseSelf(p);
      MiddleTermsVanish(p, p - 1, a - 1);
      CongAdd(Pow(a - 1, p), a - 1, Expansion(p, p - 1, a - 1), 1, p);
    }
  }

  /** Fermat's little theorem. */
  lemma Fermat(p: int, a: int)
    requires IsPrime(p) && a % p != 0
    ensures Cong(Pow(a, p - 1), 1, p)
  {
    PowerIsIdentity(p, a % p);
    CongMod(a, p);
    PowCong(a % p, a, p, p);
    CongSym(Pow(a % p, p), Pow(a, p), p);
    CongTrans(Pow(a, p), Pow(a % p, p), a % p, p);
    CongTrans(Pow(a, p), a % p, a, p);
    assert Pow(a, p) == a * Pow(a, p - 1) && a == a * 1;
    Cancel(a, Pow(a, p - 1), 1, p);
  }

  // ----- the quadratic character of 2 -----

  function Factorial(n: nat): int {
    if n == 0 then 1 else n * Factorial(n - 1)
  }

  /** 1 * 3 * ... * (2n - 1) */
  function Odds(n: nat): int {
    if n == 0 then 1 else (2 * n - 1) * Odds(n - 1)
  }

  /** 2 * 4 * ... * 2n */
  function Evens(n: nat): int {
    if n == 0 then 1 else (2 * n) * Evens(n - 1)
  }

  /** (p - 1) * (p - 3) * ... * (p - (2n - 1)) */
  function Mirror(n: nat, p: int): int {
    if n == 0 then 1 else (p - (2 * n - 1)) * Mirror(n - 1, p)
  }

  lemma {:induction false} EvensAreDoubles(n: nat)
    ensures Evens(n) == Pow(2, n) * Factorial(n)
  {
    if n > 0 {
      EvensAreDoubles(n - 1);
      Interchange(2, n, Pow(2, n - 1), Factorial(n - 1));
    }
  }

  lemma {:induction false} FactorialSplits(n: nat)
    ensures Factorial(2 * n) == Evens(n) * Odds(n)
  {
    if n > 0 {
      FactorialSplits(n - 1);
      var u, v, w := Evens(n - 1), Odds(n - 1), 2 * n;
      assert Factorial(w) == w * Factorial(w - 1) && Factorial(w - 1) == (w - 1) * Factorial(w - 2);
      Interchange(w, w - 1, u, v);
      assert w * ((w - 1) * (u * v)) == (w * (w - 1)) * (u * v);
    }
  }

  lemma Rotate(a: int, b: int, c: int)
    ensures (a * b) * c == b * (a * c)
  {
  }

  lemma {:induction false} EvensMirror(m: nat, j: nat, p: int)
    requires p == 4 * m + 1 && j <= 2 * m
    ensures Evens(2 * m) == Evens(2 * m - j) * Mirror(j, p)
  {
    if j > 0 {
      EvensMirror(m, j - 1, p);
      var e, f := 2 * m - j, Mirror(j - 1, p);
      var c := 2 * (e + 1);
      assert Evens(e + 1) == c * Evens(e) && c == p - (2 * j - 1);
      Rotate(c, Evens(e), f);
    }
  }

  function Alternating(n: nat): int {
    if n % 2 == 0 then 1 else -1
  }

  lemma MirrorStep(c: int, f: int, s: int, o: int, p: int)
    requires p > 0 && Cong(f, s * o, p)
    ensures Cong((p - c) * f, -s * (c * o), p)
  {
    hide Cong;
    FromQuotient(p - c, -c, 1, p);
    CongMul(p - c, -c, f, s * o, p);
    assert -c * (s * o) == -s * (c * o);
  }

  lemma {:induction false} MirrorCong(n: nat, p: int)
    requires p > 0
    ensures Cong(Mirror(n, p), Alternating(n) * Odds(n), p)
  {
    hide Cong;
    if n == 0 {
      FromQuotient(1, 1, 0, p);
    } else {
      MirrorCong(n - 1, p);
      MirrorStep(2 * n - 1, Mirror(n - 1, p), Alternating(n - 1), Odds(n - 1), p);
    }
  }

  lemma {:induction false} FactorialIndivisible(n: nat, p: int)
    requires IsPrime(p) && n < p
    ensures Factorial(n) % p != 0
  {
    if n == 0 {
      ModUnique(1, 0, 1, p);
    } else {
      FactorialIndivisible(n - 1, p);
      ModUnique(n, 0, n, p);
      if Factorial(n) % p == 0 { Euclid(n, Factorial(n - 1), p); }
    }
  }

  lemma EvensNegate(m: nat, p: int)
    requires p == 4 * m + 1 && m % 2 == 1
    ensures Cong(Evens(2 * m), -Factorial(2 * m), p)
  {
    var e, o := Evens(m), Odds(m);
    EvensMirror(m, m, p);
    MirrorCong(m, p);
    FactorialSplits(m);
    CongScale(e, Mirror(m, p), -1 * o, p);
    assert e * (-1 * o) == -(e * o);
  }

  lemma CancelNegated(f: int, t: int, p: int)
    requires IsPrime(p) && f % p != 0 && Cong(t * f, -f, p)
    ensures Cong(t, -1, p)
  {
    hide Cong;
    assert t * f == f * t && -f == f * -1;
    Cancel(f, t, -1, p);
  }

  /** Modulo a prime p = 8k + 5, the number 2 is not a square: 2^((p-1)/2) is -1. */
  lemma TwoIsNonResidue(p: int)
    requires IsPrime(p) && p % 8 == 5
    ensures Cong(Pow(2, (p - 1) / 2), -1, p)
  {
    hide Cong;
    var m := (p - 1) / 4;
    EvensNegate(m, p);
    EvensAreDoubles(2 * m);
    FactorialIndivisible(2 * m, p);
    CancelNegated(Factorial(2 * m), Pow(2, 2 * m), p);
  }

  lemma PowerOfTwice(z: int, w: int, e: nat, p: int)
    requires p > 0 && Cong(w * w, 2 * (z * z), p)
    ensures Cong(Pow(w, 2 * e), Pow(2, e) * Pow(z, 2 * e), p)
  {
    hide Cong;
    PowCong(w * w, 2 * (z * z), e, p);
    PowOfProduct(w, w, e);
    PowAdd(w, e, e);
    PowOfProduct(2, z * z, e);
    PowOfProduct(z, z, e);
    PowAdd(z, e, e);
  }

  lemma OneIsNotMinusOne(p: int)
    requires p > 2
    ensures !Cong(1, -1, p)
  {
    ModUnique(2, 0, 2, p);
  }

  /** Nor is twice a nonzero square a square. */
  lemma TwiceSquareIsNoSquare(z: int, w: int, p: int)
    requires IsPrime(p) && p % 8 == 5 && z % p != 0
    ensures !Cong(w * w, 2 * (z * z), p)
  {
    if Cong(w * w, 2 * (z * z), p) {
      if w % p == 0 {
        ZeroTwice(z, w, p);
      } else {
        hide Cong;
        var e := (p - 1) / 2;
        PowerOfTwice(z, w, e, p);
        Fermat(p, w);
        Fermat(p, z);
        TwoIsNonResidue(p);
        CongMul(Pow(2, e), -1, Pow(z, p - 1), 1, p);
        CongSym(Pow(w, p - 1), 1, p);
        CongTrans(1, Pow(w, p - 1), Pow(2, e) * Pow(z, p - 1), p);
        CongTrans(1, Pow(2, e) * Pow(z, p - 1), -1, p);
        OneIsNotMinusOne(p);
      }
    }
  }

  lemma ZeroTwice(z: int, w: int, p: int)
    requires IsPrime(p) && p > 2 && w % p == 0 && Cong(w * w, 2 * (z * z), p)
    ensures z % p == 0
  {
    hide Cong;
    FromQuotient(w, 0, w / p, p);
    CongMul(w, 0, w, 0, p);
    CongSym(w * w, 2 * (z * z), p);
    CongTrans(2 * (z * z), w * w, 0, p);
    CongIffMod(2 * (z * z), 0, p);
    ModUnique(0, 0, 0, p);
    ModUnique(2, 0, 2, p);
    Euclid(2, z * z, p);
    Euclid(z, z, p);
  }

  // ----- square roots -----

  /** Two square roots of the same number differ only in sign. */
  lemma RootsAgree(x: int, y: int, p: int)
    requires IsPrime(p) && Cong(x * x, y * y, p)
    ensures Cong(x, y, p) || Cong(x, -y, p)
  {
    assert x * x - y * y == (x - y) * (x + y);
    Euclid(x - y, x + y, p);
  }

  /** Euler's criterion for a square: its (p-1)/4-th power is 1 or -1. */
  lemma QuarterPower(x: int, p: int)
    requires IsPrime(p) && p % 4 == 1 && x % p != 0
    ensures Cong(Pow(x * x, (p - 1) / 4), 1, p) || Cong(Pow(x * x, (p - 1) / 4), -1, p)
  {
    var q := (p - 1) / 4;
    var h := Pow(x * x, q);
    Fermat(p, x);
    PowOfProduct(x, x, q);
    PowAdd(x, q, q);
    PowAdd(x, 2 * q, 2 * q);
    assert h * h == Pow(x, p - 1);
    RootsAgree(h, 1, p);
  }
}
