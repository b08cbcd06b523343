/** The 32-byte Ed25519 point encoding (RFC 8032, sections 5.1.2 and 5.1.3): the low 255 bits are
    y, little-endian, and the top bit is the parity of x. */
module Ed25519Codec {
  import opened Bytes
  import opened Congruence
  import opened PrimeField
  import opened Options

  /** 256^31 and 2^255, the weights of the top byte and of its sign bit. */
  const WEIGHT_31: int := 0x100000000000000000000000000000000000000000000000000000000000000
  const BIT_255: int := 0x8000000000000000000000000000000000000000000000000000000000000000

  /** 2^255 - 19, the field of Ed25519. */
  const FIELD_PRIME: int := BIT_255 - 19

  /** A square root of -2 * 364994 * 364998 modulo 2^255 - 19, and the multiple by which it misses. */
  const HALF_SQUARE_ROOT: int := 0x1a7841014e516f56364b0913f8ada107966f6af13012444259a1319d3a1cdb00
  const HALF_SQUARE_QUOTIENT: int := 0x5794b628b474179e5f9085e8cfd261c418e370bd986a6742a9c03f62cceb978

  lemma Weights()
    ensures Pow256(31) == WEIGHT_31 && Pow256(32) == 2 * BIT_255
  {
    assert Pow256(8) == 0x1_0000_0000_0000_0000;
    Pow256Add(8, 8);
    Pow256Add(16, 8);
    Pow256Add(24, 7);
    assert Pow256(7) == 0x100_0000_0000_0000;
  }

  function CurveD(p: int): int
    requires IsPrime(p) && 121666 % p != 0
  {
    (Inv(121666, p) * -121665) % p
  }

  /** -x^2 + y^2 = 1 + d x^2 y^2 over the field of p elements. */
  ghost predicate OnCurve(x: int, y: int, p: int)
    requires IsPrime(p) && 121666 % p != 0
  {
    Cong(y * y - x * x, 1 + CurveD(p) * (x * x) * (y * y), p)
  }

  ghost function Encode(x: nat, y: nat): (pub: seq<Byte>)
    ensures |pub| == 32
  {
    LEBytes(y + (x % 2) * BIT_255, 32)
  }

  /** The candidate root of x2: x2^((p+3)/8), times 2^((p-1)/4) when it does not square to x2. */
  function CandidateRoot(x2: int, p: int): (r: int)
    requires IsPrime(p) && p % 8 == 5
    ensures 0 <= r < p
  {
    var r := Pow(x2, (p + 3) / 8) % p;
    if r * r % p != x2 then (r * (Pow(2, (p - 1) / 4) % p)) % p else r
  }

  /** The quotient that x^2 has to equal; None where a modular inverse does not exist. */
  function XSquared(y: nat, p: int): Option<int>
    requires IsPrime(p)
  {
    if 121666 % p == 0 then None else
    var y2 := y * y % p;
    var num := (y2 - 1) % p;
    var den := (CurveD(p) * y2 + 1) % p;
    if den % p == 0 then None else Some(num * Inv(den, p) % p)
  }

  /** The x-coordinate recovered for y. */
  function RecoverX(y: nat, sign: nat, p: int): Option<int>
    requires IsPrime(p) && p % 8 == 5
  {
    match XSquared(y, p)
    case None => None
    case Some(x2) =>
      var x := CandidateRoot(x2, p);
      Some(if x % 2 != sign then p - x else x)
  }

  /** The check that the decoder leaves out after correcting the root: it squares to x^2. */
  predicate RootFits(y: nat, p: int)
    requires IsPrime(p) && p % 8 == 5 && XSquared(y, p).Some?
  {
    var r := CandidateRoot(XSquared(y, p).value, p);
    r * r % p == XSquared(y, p).value
  }

  ghost function Decode(pub: seq<Byte>, p: int): Option<(int, int)>
    requires |pub| == 32 && IsPrime(p) && p % 8 == 5
  {
    var y := LE(pub) % BIT_255;
    match RecoverX(y, LE(pub) / BIT_255, p)
    case None => None
    case Some(x) => Some((x, y))
  }

  // ----- the loops -----

  lemma {:induction false} LEAppend(s: seq<Byte>, b: Byte)
    ensures LE(s + [b]) == LE(s) + b * Pow256(|s|)
  {
    if s == [] {
      assert LE([b][1..]) == 0;
    } else {
      LEAppend(s[1..], b);
      assert (s + [b])[1..] == s[1..] + [b];
      assert 256 * (b * Pow256(|s| - 1)) == b * (256 * Pow256(|s| - 1));
    }
  }

  /** The top byte of a 32-byte string carries the sign bit and the top seven bits of y. */
  lemma TopByte(s: seq<Byte>)
    requires |s| == 32
    ensures LE(s) / BIT_255 == s[31] / 128
    ensures LE(s) % BIT_255 == LE(s[31 := s[31] % 128])
    ensures LE(s) == LE(s[..31]) + s[31] * WEIGHT_31 && LE(s[..31]) < WEIGHT_31
  {
    var t, b := s[..31], s[31];
    LEAppend(t, b);
    LEAppend(t, b % 128);
    LEBounded(t);
    Weights();
    assert s == t + [b] && s[31 := b % 128] == t + [b % 128];
    assert b == 128 * (b / 128) + b % 128;
  }

  lemma SetTopBit(y: nat)
    requires y < BIT_255
    ensures LEBytes(y, 32)[31] < 128 && LE(LEBytes(y, 32)) == y
    ensures LEBytes(y + BIT_255, 32) == LEBytes(y, 32)[31 := LEBytes(y, 32)[31] + 128]
  {
    var s := LEBytes(y, 32);
    assert LE(s) == y by {
      LEOfLEBytes(y, 32);
      Weights();
      ModUnique(y, 0, y, Pow256(32));
    }
    TopByte(s);
    var t := s[31 := s[31] + 128];
    assert LE(t) == y + BIT_255 by {
      TopByte(t);
      assert t[..31] == s[..31];
    }
    LEBytesOfLE(t);
  }

  /** edwardsToEd25519PubKey and edwardsPointToEd25519PubKey. */
  method EncodePoint(x: nat, y: nat) returns (pub: array<Byte>)
    requires y < BIT_255
    ensures fresh(pub) && pub[..] == Encode(x, y)
  {
    hide LE, LEBytes, Pow256;
    Weights();
    SetTopBit(y);
    pub := LittleEndianBuffer(y, 32);
    if x % 2 == 1 {
      pub[31] := pub[31] + 128;
    }
  }

  /** decodeEd25519PubKey: clear the sign bit, reverse to big-endian, recover x. */
  method DecodePoint(pub: array<Byte>, p: int) returns (point: Option<(int, int)>)
    requires pub.Length == 32 && IsPrime(p) && p % 8 == 5
    ensures point == Decode(pub[..], p)
  {
    var sign := pub[31] / 128;
    var yLE := new Byte[32](i requires 0 <= i < 32 reads pub => pub[i]);
    yLE[31] := yLE[31] % 128;
    var yBE := new Byte[32](i => 0);
    for i := 0 to 32
      invariant yLE[..] == pub[..][31 := pub[31] % 128]
      invariant yBE[..i] == Reverse(yLE[..])[..i]
    {
      yBE[i] := yLE[31 - i];
    }
    assert yBE[..] == Reverse(yLE[..]);
    LEOfReverse(yBE[..]);
    assert Reverse(yBE[..]) == yLE[..];
    TopByte(pub[..]);
    var y := BE(yBE[..]);
    var x := RecoverX(y, sign, p);
    point := match x
      case None => None
      case Some(xv) => Some((xv, y));
  }

  // ----- decoding undoes encoding -----

  /** The square of 2^((p-1)/4) is -1. */
  lemma SqrtOfMinusOne(p: int)
    requires IsPrime(p) && p % 8 == 5
    ensures var i := Pow(2, (p - 1) / 4) % p; Cong(i * i, -1, p)
  {
    hide Cong;
    var w := Pow(2, (p - 1) / 4);
    PowAdd(2, (p - 1) / 4, (p - 1) / 4);
    TwoIsNonResidue(p);
    CongMod(w, p);
    CongMul(w % p, w, w % p, w, p);
    CongTrans((w % p) * (w % p), w * w, -1, p);
  }

  lemma NegatedRoot(x2: int, r: int, i: int, p: int)
    requires p > 0 && Cong(r * r, -x2, p) && Cong(i * i, -1, p)
    ensures var s := r * i % p; Cong(s * s, x2, p)
  {
    hide Cong;
    var s := r * i % p;
    CongMod(r * i, p);
    CongMul(s, r * i, s, r * i, p);
    CongMul(r * r, -x2, i * i, -1, p);
    Interchange(r, i, r, i);
    assert -x2 * -1 == x2;
    CongTrans(s * s, (r * r) * (i * i), x2, p);
  }

  lemma RootFromSign(x2: int, e: int, p: int)
    requires IsPrime(p) && p % 8 == 5 && 0 <= x2 < p
    requires var h := Pow(x2, (p + 3) / 8); h * h == x2 * e
    requires Cong(e, 1, p) || Cong(e, -1, p)
    ensures var r := CandidateRoot(x2, p); Cong(r * r, x2, p)
  {
    hide Cong;
    var h := Pow(x2, (p + 3) / 8);
    var r := h % p;
    CongMod(h, p);
    CongMul(r, h, r, h, p);
    CongMod(r * r, p);
    if r * r % p != x2 {
      assert !Cong(e, 1, p) by {
        if Cong(e, 1, p) {
          CongScale(x2, e, 1, p);
          CongTrans(r * r, h * h, x2 * 1, p);
          CongIffMod(r * r, x2, p);
          ModUnique(x2, 0, x2, p);
        }
      }
      CongScale(x2, e, -1, p);
      CongTrans(r * r, h * h, -x2, p);
      SqrtOfMinusOne(p);
      NegatedRoot(x2, r, Pow(2, (p - 1) / 4) % p, p);
    } else {
      CongSym(r * r % p, r * r, p);
    }
  }

  lemma {:induction false} PowOfZero(e: nat)
    requires e > 0
    ensures Pow(0, e) == 0
  {
  }

  lemma QuarterSign(x: int, x2: int, p: int)
    requires IsPrime(p) && p % 4 == 1 && x2 == x * x % p && x % p != 0
    ensures var e := Pow(x2, (p - 1) / 4); Cong(e, 1, p) || Cong(e, -1, p)
  {
    hide Cong;
    var q := (p - 1) / 4;
    CongMod(x * x, p);
    PowCong(x2, x * x, q, p);
    QuarterPower(x, p);
    var s := if Cong(Pow(x * x, q), 1, p) then 1 else -1;
    CongTrans(Pow(x2, q), Pow(x * x, q), s, p);
  }

  lemma HalfPowers(x: int, k: nat)
    requires k >= 1
    ensures Pow(x, k) * Pow(x, k) == x * Pow(x, 2 * k - 1)
  {
    PowAdd(x, k, k);
  }

  /** A nonzero square is its candidate root squared, by Euler's criterion. */
  lemma NonzeroRoot(x: int, x2: int, p: int)
    requires IsPrime(p) && p % 8 == 5 && x2 == x * x % p && x % p != 0
    ensures var r := CandidateRoot(x2, p); Cong(r * r, x2, p)
  {
    hide Cong, CandidateRoot;
    HalfPowers(x2, (p + 3) / 8);
    assert 2 * ((p + 3) / 8) - 1 == (p - 1) / 4;
    QuarterSign(x, x2, p);
    RootFromSign(x2, Pow(x2, (p - 1) / 4), p);
  }

  /** A square root of a square, by the rule for p = 8k + 5. */
  lemma CandidateIsRoot(x: int, x2: int, p: int)
    requires IsPrime(p) && p % 8 == 5 && x2 == x * x % p
    ensures var r := CandidateRoot(x2, p); Cong(r * r, x * x, p)
  {
    hide Cong;
    var r := CandidateRoot(x2, p);
    CongMod(x * x, p);
    if x % p == 0 {
      SquareOfZero(x, p);
      PowOfZero((p + 3) / 8);
      assert r == 0;
    } else {
      hide CandidateRoot;
      NonzeroRoot(x, x2, p);
    }
    CongTrans(r * r, x2, x * x, p);
  }

  lemma SquareOfZero(x: int, p: int)
    requires p > 0 && x % p == 0
    ensures x * x % p == 0 && Cong(0, 0, p)
  {
    FromQuotient(x, 0, x / p, p);
    CongMul(x, 0, x, 0, p);
    CongIffMod(x * x, 0, p);
  }

  /** The curve equation solved for x^2: x^2 (d y^2 + 1) = y^2 - 1. */
  lemma SolveForX(x: int, y: int, d: int, p: int)
    requires p > 0 && Cong(y * y - x * x, 1 + d * (x * x) * (y * y), p)
    ensures Cong((x * x) * (d * (y * y) + 1), y * y - 1, p)
  {
    hide Cong;
    var a, b := x * x, y * y;
    var k := Quotient(b - a, 1 + d * a * b, p);
    assert a * (d * b + 1) == b - 1 + (-k) * p by {
      assert a * (d * b) == d * a * b;
      assert (-k) * p == -(k * p);
    }
    FromQuotient(a * (d * b + 1), b - 1, -k, p);
  }

  /** d is not -1, since 121665 and 121666 differ by one. */
  lemma CurveDIsNotMinusOne(p: int)
    requires IsPrime(p) && 121666 % p != 0
    ensures !Cong(CurveD(p), -1, p)
  {
    hide Cong;
    var i, d := Inv(121666, p), CurveD(p);
    if Cong(d, -1, p) {
      CongMod(i * -121665, p);
      CongScale(121666, d, i * -121665, p);
      CongScale(-121665, 121666 * i, 1, p);
      assert 121666 * (i * -121665) == -121665 * (121666 * i);
      CongTrans(121666 * d, 121666 * (i * -121665), -121665, p);
      CongScale(121666, d, -1, p);
      CongSym(121666 * d, -121666, p);
      CongTrans(-121666, 121666 * d, -121665, p);
      CongAdd(-121666, -121665, 121666, 121666, p) by { FromQuotient(121666, 121666, 0, p); }
      CongIffMod(0, 1, p);
      ModUnique(1, 0, 1, p);
      ModUnique(0, 0, 0, p);
    }
  }

  /** For every point of the curve the denominator d y^2 + 1 has an inverse: otherwise y^2 = 1 and d = -1. */
  lemma DenominatorInvertible(x: int, y: int, p: int)
    requires IsPrime(p) && 121666 % p != 0 && OnCurve(x, y, p)
    ensures (CurveD(p) * (y * y) + 1) % p != 0
  {
    hide Cong;
    var d, a, b := CurveD(p), x * x, y * y;
    SolveForX(x, y, d, p);
    if (d * b + 1) % p == 0 {
      FromQuotient(d * b + 1, 0, (d * b + 1) / p, p);
      CongScale(a, d * b + 1, 0, p);
      CongSym(a * (d * b + 1), b - 1, p);
      CongTrans(b - 1, a * (d * b + 1), 0, p);
      CongScale(d, b - 1, 0, p);
      CongAdd(d * b + 1, 0, d * (b - 1), 0, p);
      assert d * b + 1 - d * (b - 1) == d + 1;
      CongAdd(d + 1, 0, 1, 1, p) by { FromQuotient(1, 1, 0, p); }
      CurveDIsNotMinusOne(p);
    }
  }

  /** The quotient num / den that the decoder computes is x^2. */
  lemma QuotientIsSquare(x: int, y: int, p: int)
    requires IsPrime(p) && 121666 % p != 0 && OnCurve(x, y, p)
    ensures var y2 := y * y % p;
            var num := (y2 - 1) % p;
            var den := (CurveD(p) * y2 + 1) % p;
            den % p != 0 && num * Inv(den, p) % p == x * x % p
  {
    hide Cong, CurveD;
    var d, a, b := CurveD(p), x * x, y * y;
    var num, den := (b % p - 1) % p, (d * (b % p) + 1) % p;
    ReducedFraction(b, d, p);
    DenominatorInvertible(x, y, p);
    CongIffMod(den, d * b + 1, p);
    ModTwice(d * (b % p) + 1, p);
    SolveForX(x, y, d, p);
    Divide(a, d * b + 1, den, b - 1, num, p);
  }

  lemma ModTwice(n: int, p: int)
    requires p > 0
    ensures n % p % p == n % p
  {
    ModUnique(n % p, 0, n % p, p);
  }

  lemma Divide(a: int, c: int, den: int, e: int, num: int, p: int)
    requires IsPrime(p) && den % p != 0
    requires Cong(a * c, e, p) && Cong(den, c, p) && Cong(num, e, p)
    ensures num * Inv(den, p) % p == a % p
  {
    hide Cong;
    var i := Inv(den, p);
    CongScale(a, den, c, p);
    CongSym(num, e, p);
    CongTrans(a * den, a * c, e, p);
    CongTrans(a * den, e, num, p);
    CongScale(i, a * den, num, p);
    CongScale(a, den * i, 1, p);
    assert i * (a * den) == a * (den * i) && i * num == num * i;
    CongSym(i * (a * den), num * i, p);
    CongTrans(num * i, a * (den * i), a, p);
    CongIffMod(num * i, a, p);
  }

  /** Every string that the encoder makes from a point of the curve decodes to that point. */
  lemma DecodeUndoesEncode(x: nat, y: nat, p: int)
    requires IsPrime(p) && p % 8 == 5 && p <= BIT_255 && 121666 % p != 0
    requires x < p && y < p && OnCurve(x, y, p)
    ensures Decode(Encode(x, y), p) == Some((x, y))
  {
    hide Cong, CurveD, OnCurve, Encode, CandidateRoot;
    EncodedNumber(x, y);
    QuotientIsSquare(x, y, p);
    CandidateIsRoot(x, x * x % p, p);
    PickRoot(x, CandidateRoot(x * x % p, p), p);
  }

  lemma EncodedNumber(x: nat, y: nat)
    requires y < BIT_255
    ensures LE(Encode(x, y)) % BIT_255 == y && LE(Encode(x, y)) / BIT_255 == x % 2
  {
    var n := y + (x % 2) * BIT_255;
    Weights();
    LEOfLEBytes(n, 32);
    ModUnique(n, 0, n, Pow256(32));
  }

  /** Of the two roots in [0, p), the parity picks one, as p is odd. */
  lemma PickRoot(x: nat, r: nat, p: int)
    requires IsPrime(p) && p % 8 == 5 && x < p && r < p && Cong(r * r, x * x, p)
    ensures x == if r % 2 != x % 2 then p - r else r
  {
    hide Cong;
    RootsAgree(r, x, p);
    if Cong(r, x, p) {
      CongReduced(r, x, p);
    } else if x > 0 {
      FromQuotient(0 - x, p - x, -1, p);
      CongTrans(r, 0 - x, p - x, p);
      CongReduced(r, p - x, p);
    }
  }

  /** The decoder never checks that y belongs to a point: what it returns lies on the curve exactly when
      the root it computed squares to the quotient, the test it leaves out, and exactly when some point
      of the curve has that y. */
  lemma DecodedIsOnCurveIff(pub: seq<Byte>, p: int)
    requires |pub| == 32 && IsPrime(p) && p % 8 == 5 && 121666 % p != 0
    requires Decode(pub, p).Some?
    ensures var (x, y) := Decode(pub, p).value;
            && XSquared(y, p).Some?
            && (OnCurve(x, y, p) <==> RootFits(y, p))
            && (OnCurve(x, y, p) <==> exists x' :: OnCurve(x', y, p))
  {
    hide Cong;
    var (x, y) := Decode(pub, p).value;
    var r := CandidateRoot(XSquared(y, p).value, p);
    SquareOfNegation(r, p);
    if x' :| OnCurve(x', y, p) {
      QuotientIsSquare(x', y, p);
      CandidateIsRoot(x', x' * x' % p, p);
      CongIffMod(r * r, x' * x', p);
      if x != r {
        CongTrans(x * x, r * r, x' * x', p);
      }
      SquareOnCurve(x, x', y, CurveD(p), p);
    }
    if RootFits(y, p) {
      FittingRoot(r, y, p);
      if x != r {
        CongSym(x * x, r * r, p);
        SquareOnCurve(x, r, y, CurveD(p), p);
      }
    }
  }

  /** A number that squares to the quotient solves the curve equation for y. */
  lemma FittingRoot(r: int, y: nat, p: int)
    requires IsPrime(p) && 121666 % p != 0 && XSquared(y, p).Some? && r * r % p == XSquared(y, p).value
    ensures OnCurve(r, y, p)
  {
    var d, b := CurveD(p), y * y;
    var num, den := (b % p - 1) % p, (d * (b % p) + 1) % p;
    var i := Inv(den, p);
    assert Cong(den * i, 1, p) && (r * r) % p == num * i % p;
    hide Cong, IsPrime, CurveD, XSquared;
    ReducedFraction(b, d, p);
    RootTimesDen(r * r, num, den, i, p);
    CongTrans(r * r * den, num, b - 1, p);
    SolvedEquation(r * r, den, d, b, p);
  }

  /** The decoder's numerator and denominator, which it reduces at every step. */
  lemma ReducedFraction(b: int, d: int, p: int)
    requires p > 0
    ensures Cong((b % p - 1) % p, b - 1, p) && Cong((d * (b % p) + 1) % p, d * b + 1, p)
  {
    hide Cong;
    var y2, one := b % p, 1;
    CongMod(b, p);
    FromQuotient(one, one, 0, p);
    CongMod(y2 - 1, p);
    CongAdd(y2, b, one, one, p);
    CongTrans((y2 - 1) % p, y2 - 1, b - 1, p);
    CongMod(d * y2 + 1, p);
    CongScale(d, y2, b, p);
    CongAdd(d * y2, d * b, one, one, p);
    CongTrans((d * y2 + 1) % p, d * y2 + 1, d * b + 1, p);
  }

  lemma RootTimesDen(a: int, num: int, den: int, i: int, p: int)
    requires p > 0 && a % p == num * i % p && Cong(den * i, 1, p)
    ensures Cong(a * den, num, p)
  {
    hide Cong;
    CongIffMod(a, num * i, p);
    CongScale(den, a, num * i, p);
    CongScale(num, den * i, 1, p);
    assert den * (num * i) == num * (den * i) && num * 1 == num && den * a == a * den;
    CongTrans(a * den, num * (den * i), num, p);
  }

  lemma SolvedEquation(a: int, den: int, d: int, b: int, p: int)
    requires p > 0 && Cong(den, d * b + 1, p) && Cong(a * den, b - 1, p)
    ensures Cong(b - a, 1 + d * a * b, p)
  {
    hide Cong;
    CongScale(a, den, d * b + 1, p);
    var k := Quotient(a * den, a * (d * b + 1), p);
    var l := Quotient(a * den, b - 1, p);
    assert a * (d * b + 1) == d * a * b + a;
    FromQuotient(b - a, 1 + d * a * b, k - l, p);
  }

  /** Such a y on the curve itself: 2 belongs to no point of Ed25519, and is decoded nevertheless. */
  lemma DecodesOffCurve()
    requires IsPrime(FIELD_PRIME)
    ensures Decode(LEBytes(2, 32), FIELD_PRIME).Some?
    ensures var (x, y) := Decode(LEBytes(2, 32), FIELD_PRIME).value;
            y == 2 && !OnCurve(x, y, FIELD_PRIME) && XSquared(y, FIELD_PRIME).Some? && !RootFits(y, FIELD_PRIME)
  {
    hide IsPrime, LEBytes, OnCurve, XSquared, RootFits, Decode;
    SmallResidue(121666);
    TwoDecodes();
    NoPointAtTwo(Decode(LEBytes(2, 32), FIELD_PRIME).value.0);
    DecodedIsOnCurveIff(LEBytes(2, 32), FIELD_PRIME);
  }

  lemma TwoDecodes()
    requires IsPrime(FIELD_PRIME)
    ensures Decode(LEBytes(2, 32), FIELD_PRIME).Some? && Decode(LEBytes(2, 32), FIELD_PRIME).value.1 == 2
  {
    TwoReads();
    SmallResidue(121666);
    TwoHasQuotient();
    hide IsPrime, LE, LEBytes, XSquared, CandidateRoot;
  }

  lemma SmallResidue(n: int)
    requires 0 < n < FIELD_PRIME
    ensures n % FIELD_PRIME == n && -n % FIELD_PRIME != 0
  {
    ModUnique(n, 0, n, FIELD_PRIME);
    ModUnique(-n, -1, FIELD_PRIME - n, FIELD_PRIME);
  }

  /** The denominator 4 d + 1 for y = 2, times 121666. */
  lemma DenominatorAtTwo(p: int)
    requires IsPrime(p) && 121666 % p != 0
    ensures Cong(121666 * (CurveD(p) * 4 + 1), -364994, p)
  {
    hide Cong;
    var i, one := Inv(121666, p), 121666;
    CongMod(i * -121665, p);
    CongScale(121666, CurveD(p), i * -121665, p);
    CongScale(-121665, 121666 * i, 1, p);
    assert 121666 * (i * -121665) == -121665 * (121666 * i);
    CongTrans(121666 * CurveD(p), 121666 * (i * -121665), -121665, p);
    CongScale(4, 121666 * CurveD(p), -121665, p);
    FromQuotient(one, one, 0, p);
    CongAdd(4 * (121666 * CurveD(p)), 4 * -121665, one, one, p);
    assert 4 * (121666 * CurveD(p)) + one == 121666 * (CurveD(p) * 4 + 1);
  }

  lemma TwoHasQuotient()
    requires IsPrime(FIELD_PRIME) && 121666 % FIELD_PRIME != 0
    ensures XSquared(2, FIELD_PRIME).Some?
  {
    hide Cong, CurveD, IsPrime;
    var p, c := FIELD_PRIME, CurveD(FIELD_PRIME) * 4 + 1;
    SmallResidue(4);
    SmallResidue(364994);
    ModTwice(c, p);
    DenominatorAtTwo(p);
    CongIffMod(121666 * c, -364994, p);
    ScaledMultiple(121666, c, p);
  }

  lemma ScaledMultiple(f: int, c: int, p: int)
    requires p > 0
    ensures c % p == 0 ==> f * c % p == 0
  {
    if c % p == 0 {
      assert f * c == (f * (c / p)) * p;
      ModMultiple(f * (c / p), p);
    }
  }

  /** The curve equation for y = 2 makes -364994 * 364998 a square, and that number is half a square. */
  lemma NoPointAtTwo(x: int)
    requires IsPrime(FIELD_PRIME) && 121666 % FIELD_PRIME != 0
    ensures !OnCurve(x, 2, FIELD_PRIME)
  {
    if OnCurve(x, 2, FIELD_PRIME) {
      hide Cong, CurveD, IsPrime;
      var p, c, a, z := FIELD_PRIME, CurveD(FIELD_PRIME) * 4 + 1, x * x, 364994 * x;
      SolveForX(x, 2, CurveD(p), p);
      DenominatorAtTwo(p);
      SquareAtTwo(a, c, p);
      assert z * z == -364994 * (-364994 * a);
      HalfSquare(z);
      SmallResidue(364994 * 364998);
      CongIffMod(z * z, -364994 * 364998, p);
      if z % p == 0 {
        SquareOfZero(z, p);
      }
      TwiceSquareIsNoSquare(z, HALF_SQUARE_ROOT, p);
    }
  }

  lemma SquareAtTwo(a: int, c: int, p: int)
    requires p > 0 && Cong(a * c, 3, p) && Cong(121666 * c, -364994, p)
    ensures Cong(-364994 * (-364994 * a), -364994 * 364998, p)
  {
    hide Cong;
    CongScale(a, 121666 * c, -364994, p);
    CongSym(a * (121666 * c), a * -364994, p);
    CongScale(121666, a * c, 3, p);
    assert a * (121666 * c) == 121666 * (a * c) && a * -364994 == -364994 * a;
    CongTrans(-364994 * a, 121666 * (a * c), 364998, p);
    CongScale(-364994, -364994 * a, 364998, p);
  }

  lemma HalfSquare(z: int)
    requires Cong(z * z, -364994 * 364998, FIELD_PRIME)
    ensures Cong(HALF_SQUARE_ROOT * HALF_SQUARE_ROOT, 2 * (z * z), FIELD_PRIME)
  {
    var w, p := HALF_SQUARE_ROOT, FIELD_PRIME;
    FromQuotient(w * w, 2 * (-364994 * 364998), HALF_SQUARE_QUOTIENT, p);
    hide Cong;
    CongScale(2, z * z, -364994 * 364998, p);
    CongSym(2 * (z * z), 2 * (-364994 * 364998), p);
    CongTrans(w * w, 2 * (-364994 * 364998), 2 * (z * z), p);
  }

  lemma TwoReads()
    ensures LE(LEBytes(2, 32)) == 2 && 2 % BIT_255 == 2
  {
    Weights();
    hide LE, LEBytes, Pow256;
    LEOfLEBytes(2, 32);
  }

  lemma SquareOfNegation(r: int, p: int)
    requires p > 0
    ensures Cong((p - r) * (p - r), r * r, p)
  {
    assert (p - r) * (p - r) == r * r + (p - 2 * r) * p;
    FromQuotient((p - r) * (p - r), r * r, p - 2 * r, p);
  }

  lemma SquareOnCurve(x: int, x': int, y: int, d: int, p: int)
    requires p > 0 && Cong(x * x, x' * x', p)
    requires Cong(y * y - x' * x', 1 + d * (x' * x') * (y * y), p)
    ensures Cong(y * y - x * x, 1 + d * (x * x) * (y * y), p)
  {
    var a, a', b := x * x, x' * x', y * y;
    var k := Quotient(a, a', p);
    var l := Quotient(b - a', 1 + d * a' * b, p);
    assert b - a == 1 + d * a * b + (l - k - d * k * b) * p by {
      assert d * (a' + k * p) * b == d * a' * b + (d * k * b) * p;
    }
    FromQuotient(b - a, 1 + d * a * b, l - k - d * k * b, p);
  }
}
