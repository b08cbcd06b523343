/** A curve as the key code sees it: points given by their affine coordinates, an addition law, a
    base point whose multiples form a group of prime order n, and the IsOnCurve test of NewECPoint.
    The laws are hypotheses about the curve library. */
module Group {
  import opened Bytes
  import opened Congruence
  import opened PrimeField

  datatype Point = Point(x: nat, y: nat)

  datatype Curve = Curve(
    n: int,
    base: Point,
    zero: Point,
    add: (Point, Point) -> Point,
    member: Point -> bool,
    onCurve: Point -> bool)

  /** ScalarMult: the k-fold sum of p. */
  function Mul(c: Curve, k: nat, p: Point): Point {
    if k == 0 then c.zero else c.add(p, Mul(c, k - 1, p))
  }

  ghost predicate Commutes(c: Curve) {
    forall a, b :: c.member(a) && c.member(b) ==> c.member(c.add(a, b)) && c.add(a, b) == c.add(b, a)
  }

  ghost predicate Associates(c: Curve) {
    forall a, b, d :: c.member(a) && c.member(b) && c.member(d) ==>
      c.add(a, c.add(b, d)) == c.add(c.add(a, b), d)
  }

  /** The unit, and what points look like: coordinates of 32 bytes, and IsOnCurve but for the unit. */
  ghost predicate PointsFit(c: Curve) {
    && (forall a :: c.member(a) ==> c.add(c.zero, a) == a && a.x < Pow256(32) && a.y < Pow256(32))
    && (forall a :: c.member(a) && a != c.zero ==> c.onCurve(a))
  }

  ghost predicate IsGroup(c: Curve) {
    && IsPrime(c.n)
    && c.member(c.zero) && c.member(c.base) && c.base != c.zero
    && Commutes(c) && Associates(c) && PointsFit(c)
    && Mul(c, c.n, c.base) == c.zero
  }

  lemma Closed(c: Curve, a: Point, b: Point)
    requires IsGroup(c) && c.member(a) && c.member(b)
    ensures c.member(c.add(a, b)) && c.add(a, b) == c.add(b, a)
    ensures c.add(c.zero, a) == a && c.add(a, c.zero) == a
  {
  }

  lemma Basics(c: Curve)
    requires IsGroup(c)
    ensures IsPrime(c.n) && c.n >= 2 && c.member(c.zero) && c.member(c.base) && c.base != c.zero
    ensures Mul(c, c.n, c.base) == c.zero
  {
  }

  lemma Assoc(c: Curve, a: Point, b: Point, d: Point)
    requires IsGroup(c) && c.member(a) && c.member(b) && c.member(d)
    ensures c.add(a, c.add(b, d)) == c.add(c.add(a, b), d)
  {
  }

  lemma {:induction false} MulMember(c: Curve, k: nat, p: Point)
    requires IsGroup(c) && c.member(p)
    ensures c.member(Mul(c, k, p))
  {
    if k > 0 {
      MulMember(c, k - 1, p);
      Closed(c, p, Mul(c, k - 1, p));
    }
  }

  lemma {:induction false} MulAdd(c: Curve, j: nat, k: nat, p: Point)
    requires IsGroup(c) && c.member(p)
    ensures Mul(c, j + k, p) == c.add(Mul(c, j, p), Mul(c, k, p))
  {
    hide IsGroup;
    MulMember(c, k, p);
    if j == 0 {
      Closed(c, Mul(c, k, p), p);
    } else {
      MulMember(c, j - 1, p);
      MulAdd(c, j - 1, k, p);
      Assoc(c, p, Mul(c, j - 1, p), Mul(c, k, p));
    }
  }

  lemma MulGrows(j: nat, k: nat)
    ensures j * k >= 0 && (j > 0 ==> (j - 1) * k >= 0 && j * k == k + (j - 1) * k)
  {
  }

  lemma {:induction false} MulMul(c: Curve, j: nat, k: nat, p: Point)
    requires IsGroup(c) && c.member(p)
    ensures j * k >= 0 && Mul(c, j * k, p) == Mul(c, j, Mul(c, k, p))
  {
    hide IsGroup;
    MulGrows(j, k);
    if j > 0 {
      MulMul(c, j - 1, k, p);
      MulAdd(c, k, (j - 1) * k, p);
    }
  }

  lemma {:induction false} MulZero(c: Curve, j: nat)
    requires IsGroup(c)
    ensures Mul(c, j, c.zero) == c.zero
  {
    if j > 0 { MulZero(c, j - 1); }
  }

  lemma {:induction false} MulOrder(c: Curve, q: nat)
    requires IsGroup(c) && c.n > 0
    ensures q * c.n >= 0 && Mul(c, q * c.n, c.base) == c.zero
  {
    hide IsGroup;
    Basics(c);
    MulMul(c, q, c.n, c.base);
    MulZero(c, q);
  }

  /** Scalars of the base point may be reduced modulo the group order. */
  lemma MulReduced(c: Curve, k: nat)
    requires IsGroup(c)
    ensures c.n > 0 && Mul(c, k % c.n, c.base) == Mul(c, k, c.base)
  {
    hide IsGroup;
    Basics(c);
    var q, r := k / c.n, k % c.n;
    MulOrder(c, q);
    assert k == q * c.n + r;
    MulAdd(c, q * c.n, r, c.base);
    MulMember(c, r, c.base);
    Closed(c, Mul(c, r, c.base), c.zero);
  }

  lemma MulCongruent(c: Curve, j: nat, k: nat)
    requires IsGroup(c) && j % c.n == k % c.n
    ensures Mul(c, j, c.base) == Mul(c, k, c.base)
  {
    hide IsGroup;
    MulReduced(c, j);
    MulReduced(c, k);
  }

  /** A scalar k prime to n recovers the base point: it is k^-1 times k times itself. */
  lemma MulInverse(c: Curve, k: nat)
    requires IsGroup(c) && k % c.n != 0
    ensures var i := Inv(k, c.n); Mul(c, i, Mul(c, k, c.base)) == c.base
  {
    hide IsGroup, Cong;
    Basics(c);
    var i := Inv(k, c.n);
    MulMul(c, i, k, c.base);
    assert i * k == k * i;
    CongIffMod(i * k, 1, c.n);
    MulCongruent(c, i * k, 1);
    assert Mul(c, 1, c.base) == c.add(c.base, Mul(c, 0, c.base));
    Closed(c, c.base, c.zero);
  }

  /** The base point has order exactly n. */
  lemma MulIsZeroIff(c: Curve, k: nat)
    requires IsGroup(c)
    ensures Mul(c, k, c.base) == c.zero <==> k % c.n == 0
  {
    hide IsGroup;
    Basics(c);
    if k % c.n != 0 {
      MulInverse(c, k);
      MulZero(c, Inv(k, c.n));
    } else {
      MulReduced(c, k);
    }
  }

  /** Tweaking a key: adding t to the scalar adds t times the base point to the public point. */
  lemma MulTweak(c: Curve, k: nat, t: nat)
    requires IsGroup(c)
    ensures Mul(c, (k + t) % c.n, c.base) == c.add(Mul(c, k, c.base), Mul(c, t, c.base))
  {
    hide IsGroup;
    Basics(c);
    MulReduced(c, k + t);
    MulAdd(c, k, t, c.base);
  }

  /** The hypotheses can be met: the group of order two. */
  function Pair(): Curve {
    Curve(2, Point(0, 4), Point(0, 1), (a, b) => if a == b then Point(0, 1) else Point(0, 4),
          a => a == Point(0, 1) || a == Point(0, 4), a => a == Point(0, 1) || a == Point(0, 4))
  }

  lemma PairLaws(a: Point, b: Point, d: Point)
    requires Pair().member(a) && Pair().member(b) && Pair().member(d)
    ensures Pair().member(Pair().add(a, b)) && Pair().add(a, b) == Pair().add(b, a)
    ensures Pair().add(a, Pair().add(b, d)) == Pair().add(Pair().add(a, b), d)
    ensures Pair().add(Pair().zero, a) == a && a.x < 5 && a.y < 5 && Pair().onCurve(a)
  {
  }

  lemma PairIsGroup()
    ensures IsGroup(Pair())
  {
    assert IsPrime(2);
    hide Mul, IsPrime, Commutes, Associates, PointsFit;
    var c := Pair();
    assert c.n == 2 && c.member(c.zero) && c.member(c.base) && c.base != c.zero;
    PairMul();
    PairCommutes();
    PairAssociates();
    PairFits();
  }

  lemma PairCommutes()
    ensures Commutes(Pair())
  {
  }

  lemma PairAssociates()
    ensures Associates(Pair())
  {
    forall a, b, d | Pair().member(a) && Pair().member(b) && Pair().member(d)
      ensures Pair().add(a, Pair().add(b, d)) == Pair().add(Pair().add(a, b), d)
    {
      PairLaws(a, b, d);
    }
  }

  lemma PairFits()
    ensures PointsFit(Pair())
  {
    hide Pow256;
    AtLeastAByte(32);
  }

  lemma AtLeastAByte(k: nat)
    requires k >= 1
    ensures Pow256(k) >= 256
  {
    Pow256Monotone(1, k);
  }

  lemma PairMul()
    ensures Mul(Pair(), 2, Pair().base) == Pair().zero
  {
    assert Mul(Pair(), 1, Pair().base) == Point(0, 4);
  }
}
