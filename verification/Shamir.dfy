/** Shamir sharing of a key over the integers modulo a prime, and Lagrange interpolation at 0. */
module Shamir {
  import opened Congruence
  import opened PrimeField

  /** c[0] + c[1] x + c[2] x^2 + ... */
  function Poly(c: seq<int>, x: int): int {
    if c == [] then 0 else c[0] + x * Poly(c[1..], x)
  }

  /** The share of one party. With no coefficients the secret is handed out unreduced. */
  function Share(secret: nat, coeffs: seq<nat>, id: nat, n: int): int
    requires n > 0
  {
    if coeffs == [] then secret else Poly([secret] + coeffs, id) % n
  }

  // ----- the splitting loop -----

  lemma {:induction false} PolyAppend(c: seq<int>, a: int, x: int)
    ensures Poly(c + [a], x) == Poly(c, x) + a * Pow(x, |c|)
  {
    if c == [] {
      assert Poly([a], x) == a + x * Poly([], x);
    } else {
      PolyAppend(c[1..], a, x);
      assert (c + [a])[1..] == c[1..] + [a];
      Distribute(x, Poly(c[1..], x), a, Pow(x, |c| - 1));
    }
  }

  lemma Distribute(x: int, u: int, a: int, v: int)
    ensures x * (u + a * v) == x * u + a * (x * v)
  {
  }

  /** One turn of the inner loop keeps both accumulators congruent to what they stand for. */
  lemma SplitStep(c: seq<int>, a: int, x: int, xi: int, power: int, n: int)
    requires n > 0 && Cong(xi, Poly(c, x), n) && Cong(power, Pow(x, |c|), n)
    ensures Cong((xi + a * power % n) % n, Poly(c + [a], x), n)
    ensures Cong(power * x % n, Pow(x, |c| + 1), n)
  {
    hide Cong;
    var w := Pow(x, |c|);
    var t := a * power % n;
    PolyAppend(c, a, x);
    CongMod(a * power, n);
    CongScale(a, power, w, n);
    CongTrans(t, a * power, a * w, n);
    CongAdd(xi, Poly(c, x), t, a * w, n);
    CongMod(xi + t, n);
    CongTrans((xi + t) % n, xi + t, Poly(c + [a], x), n);
    CongMod(power * x, n);
    CongScale(x, power, w, n);
    assert power * x == x * power;
    CongTrans(power * x % n, x * power, x * w, n);
  }

  lemma CongSelf(a: int, n: int)
    requires n > 0
    ensures Cong(a, a, n)
  {
    FromQuotient(a, a, 0, n);
  }

  /** shamirSplit, with the random coefficients as an argument. */
  method ShamirSplit(secret: nat, ids: seq<nat>, coeffs: seq<nat>, n: int) returns (shares: array<int>)
    requires n > 0
    ensures fresh(shares) && shares.Length == |ids|
    ensures forall i :: 0 <= i < |ids| ==> shares[i] == Share(secret, coeffs, ids[i], n)
  {
    shares := new int[|ids|](i => 0);
    for i := 0 to |ids|
      invariant forall j :: 0 <= j < i ==> shares[j] == Share(secret, coeffs, ids[j], n)
    {
      shares[i] := EvaluateShare(secret, ids[i], coeffs, n);
    }
  }

  /** The inner loop: xi and kPower are updated coefficient by coefficient. */
  method EvaluateShare(secret: nat, k: nat, coeffs: seq<nat>, n: int) returns (xi: int)
    requires n > 0
    ensures xi == Share(secret, coeffs, k, n)
  {
    hide Cong;
    xi := secret;
    var kPower := k;
    ghost var c := [secret];
    CongSelf(secret, n);
    CongSelf(k, n);
    assert Poly([secret], k) == secret + k * Poly([], k);
    for j := 0 to |coeffs|
      invariant c == [secret] + coeffs[..j]
      invariant j == 0 ==> xi == secret
      invariant j > 0 ==> 0 <= xi < n
      invariant Cong(xi, Poly(c, k), n) && Cong(kPower, Pow(k, |c|), n)
    {
      SplitStep(c, coeffs[j], k, xi, kPower, n);
      var term := coeffs[j] * kPower % n;
      xi := (xi + term) % n;
      kPower := kPower * k % n;
      c := c + [coeffs[j]];
    }
    assert coeffs[..|coeffs|] == coeffs;
    if coeffs != [] {
      CongIffMod(xi, Poly(c, k), n);
      ModUnique(xi, 0, xi, n);
    }
  }

  // ----- Lagrange coefficients at 0 -----

  /** Evaluation points usable for interpolation: pairwise incongruent and nonzero modulo the prime. */
  ghost predicate Points(pts: seq<int>, n: int) {
    && IsPrime(n)
    && (forall i, j :: 0 <= i < j < |pts| ==> !Cong(pts[i], pts[j], n))
    && (forall i :: 0 <= i < |pts| ==> pts[i] % n != 0)
  }

  /** What the other point y contributes to the weight of x at 0: y / (y - x). */
  ghost function Factor(y: int, x: int, n: int): int
    requires IsPrime(n)
  {
    if Cong(y, x, n) then 1 else y * Inv(y - x, n)
  }

  /** The Lagrange coefficient of x at 0: the product of y / (y - x) over the other points. */
  ghost function Lambda(pts: seq<int>, x: int, n: int): int
    requires IsPrime(n)
  {
    if pts == [] then 1 else Factor(pts[0], x, n) * Lambda(pts[1..], x, n)
  }

  /** The sum over the points x of sub of Lambda(x) x^k. */
  ghost function Moment(sub: seq<int>, pts: seq<int>, k: nat, n: int): int
    requires IsPrime(n)
  {
    if sub == [] then 0 else Lambda(pts, sub[0], n) * Pow(sub[0], k) + Moment(sub[1..], pts, k, n)
  }

  lemma MulAssoc(a: int, b: int, c: int)
    ensures a * (b * c) == (a * b) * c
  {
  }

  lemma {:induction false} LambdaAppend(s: seq<int>, b: int, x: int, n: int)
    requires IsPrime(n)
    ensures Lambda(s + [b], x, n) == Lambda(s, x, n) * Factor(b, x, n)
  {
    hide Factor;
    if s == [] {
      assert [b][1..] == [];
      assert Lambda([b], x, n) == Factor(b, x, n) * Lambda([], x, n);
    } else {
      assert (s + [b])[1..] == s[1..] + [b];
      LambdaAppend(s[1..], b, x, n);
      MulAssoc(Factor(s[0], x, n), Lambda(s[1..], x, n), Factor(b, x, n));
    }
  }

  lemma {:induction false} MomentAppend(s: seq<int>, b: int, pts: seq<int>, k: nat, n: int)
    requires IsPrime(n)
    ensures Moment(s + [b], pts, k, n) == Moment(s, pts, k, n) + Lambda(pts, b, n) * Pow(b, k)
  {
    if s == [] {
      assert [b][1..] == [];
    } else {
      assert (s + [b])[1..] == s[1..] + [b];
      MomentAppend(s[1..], b, pts, k, n);
    }
  }

  /** Leaving the point a out of the product multiplies the weight of x by (a - x) / a. */
  ghost predicate Removes(a: int, pts: seq<int>, rest: seq<int>, x: int, n: int)
    requires IsPrime(n)
  {
    Cong(Lambda(pts, x, n) * (a - x), a * Lambda(rest, x, n), n)
  }

  lemma RemovesFactor(a: int, pts: seq<int>, rest: seq<int>, x: int, n: int)
    requires IsPrime(n) && !Cong(a, x, n)
    requires Lambda(pts, x, n) == Factor(a, x, n) * Lambda(rest, x, n)
    ensures Removes(a, pts, rest, x, n)
  {
    RemovesAlgebra(a, x, Inv(a - x, n), Lambda(rest, x, n), n);
  }

  lemma RemovesAlgebra(a: int, x: int, i: int, l: int, n: int)
    requires n > 0 && Cong((a - x) * i, 1, n)
    ensures Cong(((a * i) * l) * (a - x), a * l, n)
  {
    hide Cong;
    CongScale(a * l, (a - x) * i, 1, n);
    assert ((a * i) * l) * (a - x) == (a * l) * ((a - x) * i);
  }

  /** Summing (a - x) Lambda(x) x^k over points other than a. */
  lemma {:induction false} DropTerms(sub: seq<int>, a: int, pts: seq<int>, rest: seq<int>, k: nat, n: int)
    requires IsPrime(n) && forall x :: x in sub ==> Removes(a, pts, rest, x, n)
    ensures Cong(a * Moment(sub, pts, k, n) - Moment(sub, pts, k + 1, n), a * Moment(sub, rest, k, n), n)
  {
    hide Cong, Lambda;
    if sub == [] {
      FromQuotient(0, 0, 0, n);
    } else {
      var x := sub[0];
      DropTerms(sub[1..], a, pts, rest, k, n);
      assert Removes(a, pts, rest, x, n);
      DropTerm(a, x, Lambda(pts, x, n), Lambda(rest, x, n), Pow(x, k),
               Moment(sub[1..], pts, k, n), Moment(sub[1..], pts, k + 1, n), Moment(sub[1..], rest, k, n), n);
    }
  }

  lemma DropTerm(a: int, x: int, l: int, r: int, w: int, m: int, m1: int, mr: int, n: int)
    requires n > 0 && Cong(l * (a - x), a * r, n) && Cong(a * m - m1, a * mr, n)
    ensures Cong(a * (l * w + m) - (l * (x * w) + m1), a * (r * w + mr), n)
  {
    hide Cong;
    CongScale(w, l * (a - x), a * r, n);
    CongAdd(w * (l * (a - x)), w * (a * r), a * m - m1, a * mr, n);
    assert w * (l * (a - x)) + (a * m - m1) == a * (l * w + m) - (l * (x * w) + m1);
    assert w * (a * r) + a * mr == a * (r * w + mr);
  }

  /** The term of a itself cancels: a Lambda(a) a^k - Lambda(a) a^(k+1) is 0. */
  lemma OwnTermCancels(a: int, l: int, w: int, m: int, m1: int)
    ensures a * (l * w + m) - (l * (a * w) + m1) == a * m - m1
  {
  }

  lemma DropFirst(pts: seq<int>, k: nat, n: int)
    requires Points(pts, n) && pts != []
    ensures var a, rest := pts[0], pts[1..];
            Cong(a * Moment(pts, pts, k, n) - Moment(pts, pts, k + 1, n), a * Moment(rest, rest, k, n), n)
  {
    hide Cong;
    var a, rest := pts[0], pts[1..];
    forall x | x in rest
      ensures Removes(a, pts, rest, x, n)
    {
      RemovesFactor(a, pts, rest, x, n);
    }
    DropTerms(rest, a, pts, rest, k, n);
    OwnTermCancels(a, Lambda(pts, a, n), Pow(a, k), Moment(rest, pts, k, n), Moment(rest, pts, k + 1, n));
  }

  lemma RemovesLast(pts: seq<int>, x: int, n: int)
    requires Points(pts, n) && pts != [] && x in pts[..|pts| - 1]
    ensures Removes(pts[|pts| - 1], pts, pts[..|pts| - 1], x, n)
  {
    hide Lambda, Factor, Removes, Cong;
    var b, rest := pts[|pts| - 1], pts[..|pts| - 1];
    assert pts == rest + [b];
    LambdaAppend(rest, b, x, n);
    assert !Cong(b, x, n) by {
      if Cong(b, x, n) { CongSym(b, x, n); }
    }
    RemovesFactor(b, pts, rest, x, n) by {
      assert Lambda(rest, x, n) * Factor(b, x, n) == Factor(b, x, n) * Lambda(rest, x, n);
    }
  }

  lemma DropLast(pts: seq<int>, k: nat, n: int)
    requires Points(pts, n) && pts != []
    ensures var b, rest := pts[|pts| - 1], pts[..|pts| - 1];
            Cong(b * Moment(pts, pts, k, n) - Moment(pts, pts, k + 1, n), b * Moment(rest, rest, k, n), n)
  {
    hide Cong, Lambda, Moment, Removes;
    var b, rest := pts[|pts| - 1], pts[..|pts| - 1];
    assert pts == rest + [b];
    forall x | x in rest
      ensures Removes(b, pts, rest, x, n)
    {
      RemovesLast(pts, x, n);
    }
    DropTerms(rest, b, pts, rest, k, n);
    MomentAppend(rest, b, pts, k, n);
    MomentAppend(rest, b, pts, k + 1, n);
    var l, w := Lambda(pts, b, n), Pow(b, k);
    LastTermCancels(b, l, w, Moment(rest, pts, k, n), Moment(rest, pts, k + 1, n));
  }

  lemma LastTermCancels(b: int, l: int, w: int, m: int, m1: int)
    ensures b * (m + l * w) - (m1 + l * (b * w)) == b * m - m1
  {
  }

  lemma SubPoints(pts: seq<int>, n: int)
    requires Points(pts, n) && pts != []
    ensures Points(pts[1..], n) && Points(pts[..|pts| - 1], n)
  {
  }

  /** The weights sum to 1, and they annihilate every power x^k below the number of points. */
  lemma {:induction false} Moments(pts: seq<int>, k: nat, n: int)
    requires Points(pts, n) && k < |pts|
    ensures Cong(Moment(pts, pts, k, n), if k == 0 then 1 else 0, n)
    decreases |pts|, k
  {
    hide Cong, Lambda, Moment;
    var a, first := pts[0], pts[1..];
    if |pts| == 1 {
      SinglePoint(pts, n);
    } else if k == 0 {
      SubPoints(pts, n);
      var b, last := pts[|pts| - 1], pts[..|pts| - 1];
      Moments(first, 0, n);
      Moments(last, 0, n);
      DropFirst(pts, 0, n);
      DropLast(pts, 0, n);
      SumFromTwoDrops(a, b, Moment(pts, pts, 0, n), Moment(pts, pts, 1, n),
                      Moment(first, first, 0, n), Moment(last, last, 0, n), n);
    } else {
      SubPoints(pts, n);
      Moments(first, k - 1, n);
      Moments(pts, k - 1, n);
      DropFirst(pts, k - 1, n);
      NextMoment(a, Moment(pts, pts, k - 1, n), Moment(pts, pts, k, n), Moment(first, first, k - 1, n),
                 if k == 1 then 1 else 0, n);
    }
  }

  lemma SinglePoint(pts: seq<int>, n: int)
    requires IsPrime(n) && |pts| == 1
    ensures Cong(Moment(pts, pts, 0, n), 1, n)
  {
    var a := pts[0];
    FromQuotient(a, a, 0, n);
    FromQuotient(1, 1, 0, n);
    assert Lambda(pts, a, n) == Factor(a, a, n) * Lambda([], a, n) == 1;
    assert Moment(pts, pts, 0, n) == 1 * Pow(a, 0) + Moment([], pts, 0, n);
  }

  lemma SumFromTwoDrops(a: int, b: int, m: int, m1: int, f: int, l: int, n: int)
    requires IsPrime(n) && !Cong(a, b, n)
    requires Cong(a * m - m1, a * f, n) && Cong(b * m - m1, b * l, n) && Cong(f, 1, n) && Cong(l, 1, n)
    ensures Cong(m, 1, n)
  {
    assert (a - b) % n != 0;
    assert n > 0;
    hide Cong, IsPrime;
    CongScale(a, f, 1, n);
    CongScale(b, l, 1, n);
    CongTrans(a * m - m1, a * f, a, n);
    CongTrans(b * m - m1, b * l, b, n);
    CongAdd(a * m - m1, a, b * m - m1, b, n);
    DifferenceOfDrops(a, b, m, m1);
    Cancel(a - b, m, 1, n);
  }

  lemma DifferenceOfDrops(a: int, b: int, m: int, m1: int)
    ensures (a * m - m1) - (b * m - m1) == (a - b) * m && a - b == (a - b) * 1
  {
  }

  lemma NextMoment(a: int, m: int, m1: int, f: int, d: int, n: int)
    requires n > 0 && Cong(a * m - m1, a * f, n) && Cong(m, d, n) && Cong(f, d, n)
    ensures Cong(m1, 0, n)
  {
    hide Cong;
    CongScale(a, m, d, n);
    CongScale(a, f, d, n);
    CongTrans(a * m - m1, a * f, a * d, n);
    CongAdd(a * m, a * d, a * m - m1, a * d, n);
    assert a * m - (a * m - m1) == m1 && a * d - a * d == 0;
  }

  // ----- reconstruction -----

  /** Lagrange interpolation at 0 of the values ys at the points pts. */
  ghost function Interpolate(pts: seq<int>, ys: seq<int>, n: int): int
    requires IsPrime(n) && |ys| == |pts|
  {
    WeightedSum(pts, pts, ys, n) % n
  }

  ghost function WeightedSum(sub: seq<int>, pts: seq<int>, ys: seq<int>, n: int): int
    requires IsPrime(n) && |ys| == |sub|
  {
    if sub == [] then 0 else Lambda(pts, sub[0], n) * ys[0] + WeightedSum(sub[1..], pts, ys[1..], n)
  }

  /** The sum of Lambda(x) x^k Poly(c, x). */
  ghost function PolySum(sub: seq<int>, pts: seq<int>, c: seq<int>, k: nat, n: int): int
    requires IsPrime(n)
  {
    if sub == [] then 0
    else Lambda(pts, sub[0], n) * (Pow(sub[0], k) * Poly(c, sub[0])) + PolySum(sub[1..], pts, c, k, n)
  }

  lemma {:induction false} PolySumSplit(sub: seq<int>, pts: seq<int>, c: seq<int>, k: nat, n: int)
    requires IsPrime(n) && c != []
    ensures PolySum(sub, pts, c, k, n) == c[0] * Moment(sub, pts, k, n) + PolySum(sub, pts, c[1..], k + 1, n)
  {
    if sub != [] {
      PolySumSplit(sub[1..], pts, c, k, n);
      SplitTerm(Lambda(pts, sub[0], n), Pow(sub[0], k), c[0], sub[0], Poly(c[1..], sub[0]),
                Moment(sub[1..], pts, k, n), PolySum(sub[1..], pts, c[1..], k + 1, n));
    }
  }

  lemma SplitTerm(l: int, w: int, c: int, x: int, q: int, m: int, s: int)
    ensures l * (w * (c + x * q)) + (c * m + s) == c * (l * w + m) + (l * ((x * w) * q) + s)
  {
  }

  lemma {:induction false} PolySumIsConstantTerm(pts: seq<int>, c: seq<int>, k: nat, n: int)
    requires Points(pts, n) && k + |c| <= |pts|
    ensures Cong(PolySum(pts, pts, c, k, n), if k == 0 && c != [] then c[0] else 0, n)
    decreases |c|
  {
    hide Cong;
    if c == [] {
      PolySumOfZero(pts, pts, k, n);
      FromQuotient(0, 0, 0, n);
    } else {
      PolySumSplit(pts, pts, c, k, n);
      Moments(pts, k, n);
      PolySumIsConstantTerm(pts, c[1..], k + 1, n);
      var d := if k == 0 then 1 else 0;
      CongScale(c[0], Moment(pts, pts, k, n), d, n);
      CongAdd(c[0] * Moment(pts, pts, k, n), c[0] * d, PolySum(pts, pts, c[1..], k + 1, n), 0, n);
    }
  }

  lemma {:induction false} PolySumOfZero(sub: seq<int>, pts: seq<int>, k: nat, n: int)
    requires IsPrime(n)
    ensures PolySum(sub, pts, [], k, n) == 0
  {
    if sub != [] { PolySumOfZero(sub[1..], pts, k, n); }
  }

  lemma {:induction false} SumOfPolyValues(sub: seq<int>, pts: seq<int>, c: seq<int>, ys: seq<int>, n: int)
    requires IsPrime(n) && |ys| == |sub| && forall i :: 0 <= i < |ys| ==> Cong(ys[i], Poly(c, sub[i]), n)
    ensures Cong(WeightedSum(sub, pts, ys, n), PolySum(sub, pts, c, 0, n), n)
  {
    hide Cong, Lambda;
    if sub == [] {
      FromQuotient(0, 0, 0, n);
    } else {
      var l := Lambda(pts, sub[0], n);
      SumOfPolyValues(sub[1..], pts, c, ys[1..], n);
      CongScale(l, ys[0], Poly(c, sub[0]), n);
      CongAdd(l * ys[0], l * Poly(c, sub[0]),
              WeightedSum(sub[1..], pts, ys[1..], n), PolySum(sub[1..], pts, c, 0, n), n);
    }
  }

  /** Values of a polynomial of lower degree than the number of points interpolate to its constant term. */
  lemma InterpolatePoly(pts: seq<int>, c: seq<int>, ys: seq<int>, n: int)
    requires Points(pts, n) && |ys| == |pts| && 0 < |c| <= |pts|
    requires forall i :: 0 <= i < |ys| ==> Cong(ys[i], Poly(c, pts[i]), n)
    ensures Interpolate(pts, ys, n) == c[0] % n
  {
    hide Cong;
    SumOfPolyValues(pts, pts, c, ys, n);
    PolySumIsConstantTerm(pts, c, 0, n);
    CongTrans(WeightedSum(pts, pts, ys, n), PolySum(pts, pts, c, 0, n), c[0], n);
    CongIffMod(WeightedSum(pts, pts, ys, n), c[0], n);
  }

  /** Adding the same tweak to every share adds it to the shared secret: the weights sum to 1. */
  lemma InterpolateShifted(pts: seq<int>, ys: seq<int>, zs: seq<int>, s: int, n: int)
    requires Points(pts, n) && |ys| == |zs| == |pts| > 0
    requires forall i :: 0 <= i < |ys| ==> Cong(zs[i], ys[i] + s, n)
    ensures Interpolate(pts, zs, n) == (Interpolate(pts, ys, n) + s) % n
  {
    hide Cong;
    var y, z, m := WeightedSum(pts, pts, ys, n), WeightedSum(pts, pts, zs, n), Moment(pts, pts, 0, n);
    ShiftedSum(pts, pts, ys, zs, s, n);
    Moments(pts, 0, n);
    CongMod(y, n);
    CongScale(s, m, 1, n);
    CongAdd(y, y % n, s * m, s * 1, n);
    CongTrans(z, y + s * m, y % n + s, n);
    CongIffMod(z, y % n + s, n);
  }

  lemma ShiftedTerm(l: int, v: int, s: int, y: int, m: int)
    ensures l * (v + s) + (y + s * m) == l * v + y + s * (l * 1 + m)
  {
  }

  lemma {:induction false} ShiftedSum(sub: seq<int>, pts: seq<int>, ys: seq<int>, zs: seq<int>, s: int, n: int)
    requires IsPrime(n) && |ys| == |zs| == |sub|
    requires forall i :: 0 <= i < |ys| ==> Cong(zs[i], ys[i] + s, n)
    ensures Cong(WeightedSum(sub, pts, zs, n), WeightedSum(sub, pts, ys, n) + s * Moment(sub, pts, 0, n), n)
  {
    hide Cong, Lambda;
    if sub == [] {
      FromQuotient(0, 0, 0, n);
    } else {
      var l := Lambda(pts, sub[0], n);
      var y, z, m := WeightedSum(sub[1..], pts, ys[1..], n), WeightedSum(sub[1..], pts, zs[1..], n),
                     Moment(sub[1..], pts, 0, n);
      ShiftedSum(sub[1..], pts, ys[1..], zs[1..], s, n);
      ShiftedStep(l, ys[0], zs[0], s, y, z, m, n);
      assert Moment(sub, pts, 0, n) == l * Pow(sub[0], 0) + m;
    }
  }

  lemma ShiftedStep(l: int, v: int, w: int, s: int, y: int, z: int, m: int, n: int)
    requires n > 0 && Cong(w, v + s, n) && Cong(z, y + s * m, n)
    ensures Cong(l * w + z, l * v + y + s * (l * 1 + m), n)
  {
    hide Cong;
    CongScale(l, w, v + s, n);
    CongAdd(l * w, l * (v + s), z, y + s * m, n);
    ShiftedTerm(l, v, s, y, m);
  }

  // ----- the guarantees of the split -----

  /** Parties are chosen by position; no position twice. */
  ghost predicate Selection(sel: seq<nat>, count: nat) {
    && (forall i :: 0 <= i < |sel| ==> sel[i] < count)
    && (forall i, j :: 0 <= i < j < |sel| ==> sel[i] != sel[j])
  }

  function Pick(s: seq<int>, sel: seq<nat>): (r: seq<int>)
    requires forall i :: 0 <= i < |sel| ==> sel[i] < |s|
    ensures |r| == |sel|
  {
    seq(|sel|, i requires 0 <= i < |sel| => s[sel[i]])
  }

  lemma PickedPoints(ids: seq<int>, sel: seq<nat>, n: int)
    requires Points(ids, n) && Selection(sel, |ids|)
    ensures Points(Pick(ids, sel), n)
  {
    var pts := Pick(ids, sel);
    forall i, j | 0 <= i < j < |pts|
      ensures !Cong(pts[i], pts[j], n)
    {
      if Cong(pts[i], pts[j], n) { CongSym(pts[i], pts[j], n); }
    }
  }

  /** Any threshold + 1 shares, whichever the parties, interpolate to the secret modulo the group order. */
  lemma AnyQuorumReconstructs(secret: nat, coeffs: seq<nat>, ids: seq<nat>, shares: seq<int>, sel: seq<nat>, n: int)
    requires Points(ids, n) && |shares| == |ids|
    requires forall i :: 0 <= i < |ids| ==> shares[i] == Share(secret, coeffs, ids[i], n)
    requires Selection(sel, |ids|) && |sel| > |coeffs|
    ensures Interpolate(Pick(ids, sel), Pick(shares, sel), n) == secret % n
  {
    hide Cong;
    PickedPoints(ids, sel, n);
    var pts, ys, c := Pick(ids, sel), Pick(shares, sel), [secret] + coeffs;
    forall i | 0 <= i < |ys|
      ensures Cong(ys[i], Poly(c, pts[i]), n)
    {
      ShareIsPolyValue(secret, coeffs, ids[sel[i]], n);
    }
    InterpolatePoly(pts, c, ys, n);
  }

  lemma ShareIsPolyValue(secret: nat, coeffs: seq<nat>, id: nat, n: int)
    requires n > 0
    ensures Cong(Share(secret, coeffs, id, n), Poly([secret] + coeffs, id), n)
  {
    if coeffs == [] {
      assert Poly([secret], id) == secret + id * Poly([], id);
      FromQuotient(secret, secret, 0, n);
    } else {
      CongMod(Poly([secret] + coeffs, id), n);
    }
  }

  /** Shares are reduced, except that a threshold of 0 hands out the secret as it is. */
  lemma ShareReducedIff(secret: nat, coeffs: seq<nat>, id: nat, n: int)
    requires n > 0
    ensures 0 <= Share(secret, coeffs, id, n) < n <==> coeffs != [] || secret < n
  {
  }
}
