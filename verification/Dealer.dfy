/** The dealer (internal/tss/dealer.go) and what its shares keep through derivation: they represent
    the secret, and all public points match it. */
module Dealer {
  import opened Bytes
  import opened Congruence
  import opened PrimeField
  import opened Options
  import opened Group
  import opened Shamir
  import opened PartyIds
  import opened KeyDerivation

  function AllShares(secret: nat, coeffs: seq<nat>, ids: seq<nat>, n: int): (r: seq<int>)
    requires n > 0
    ensures |r| == |ids|
  {
    seq(|ids|, i requires 0 <= i < |ids| => Share(secret, coeffs, ids[i], n))
  }

  /** BigXj[i] = shares[i] * G, as far as NewECPoint accepts them. */
  function PublicShares(c: Curve, shares: seq<int>): (r: seq<Option<Point>>)
    requires forall i :: 0 <= i < |shares| ==> shares[i] >= 0
    ensures |r| == |shares|
  {
    seq(|shares|, i requires 0 <= i < |shares| => Checked(c, Mul(c, shares[i], c.base)))
  }

  /** The save data of every party, or None where the code returns an error. */
  function Deal(c: Curve, secret: nat, pub: Point, chainCode: seq<Byte>, ids: seq<nat>, coeffs: seq<nat>)
    : (r: Option<seq<State>>)
    requires c.n > 0
  {
    var shares := AllShares(secret, coeffs, ids, c.n);
    var bigX := PublicShares(c, shares);
    if None in bigX || !c.onCurve(pub) then None
    else Some(seq(|ids|, i requires 0 <= i < |ids| => State(shares[i], pub, chainCode, bigX)))
  }

  method ComputePublicShares(c: Curve, shares: array<int>) returns (bigX: array<Option<Point>>, ok: bool)
    requires forall i :: 0 <= i < shares.Length ==> shares[i] >= 0
    ensures fresh(bigX)
    ensures ok <==> None !in PublicShares(c, shares[..])
    ensures ok ==> bigX[..] == PublicShares(c, shares[..])
  {
    bigX := new Option<Point>[shares.Length](i => None);
    for i := 0 to shares.Length
      invariant bigX[..i] == PublicShares(c, shares[..])[..i] && None !in bigX[..i]
    {
      var p := Checked(c, Mul(c, shares[i], c.base));
      if p == None {
        assert PublicShares(c, shares[..])[i] == None;
        return bigX, false;
      }
      bigX[i] := p;
    }
    assert bigX[..] == PublicShares(c, shares[..]);
    return bigX, true;
  }

  method BuildShares(c: Curve, secret: nat, pub: Point, chainCode: seq<Byte>, ids: seq<nat>, coeffs: seq<nat>)
    returns (keyShares: Option<seq<State>>)
    requires c.n > 0
    ensures keyShares == Deal(c, secret, pub, chainCode, ids, coeffs)
  {
    var shares := ShamirSplit(secret, ids, coeffs, c.n);
    assert shares[..] == AllShares(secret, coeffs, ids, c.n);
    var bigX, ok := ComputePublicShares(c, shares);
    if !ok || !c.onCurve(pub) {
      return None;
    }
    var xis, points := shares[..], bigX[..];
    var saves := seq(|ids|, i requires 0 <= i < |ids| => State(xis[i], pub, chainCode, points));
    assert saves == Deal(c, secret, pub, chainCode, ids, coeffs).value;
    keyShares := Some(saves);
  }

  /** DealerSetupECDSA: the public key comes in as 65 uncompressed bytes. */
  method DealerSetupECDSA(c: Curve, privateKey: nat, pubKeyBytes: seq<Byte>, chainCode: seq<Byte>,
                          parties: seq<Name>, preParams: nat, coeffs: seq<nat>)
    returns (keyShares: Option<seq<State>>)
    requires c.n > 0 && |pubKeyBytes| == 65 && |coeffs| + 1 == |parties|
    ensures keyShares == if preParams != |parties| then None
                         else Deal(c, privateKey, Point(BE(pubKeyBytes[1..33]), BE(pubKeyBytes[33..65])), chainCode,
                                   Keys(MakeSortedPartyIDs(parties)), coeffs)
  {
    if |parties| != preParams {
      return None;
    }
    var ids := Keys(MakeSortedPartyIDs(parties));
    var pub := Point(BE(pubKeyBytes[1..33]), BE(pubKeyBytes[33..65]));
    keyShares := BuildShares(c, privateKey, pub, chainCode, ids, coeffs);
  }

  /** DealerSetupEdDSA: the public point is computed from the scalar. */
  method DealerSetupEdDSA(c: Curve, signingScalar: nat, chainCode: seq<Byte>, parties: seq<Name>, coeffs: seq<nat>)
    returns (keyShares: Option<seq<State>>)
    requires c.n > 0 && |coeffs| + 1 == |parties|
    ensures keyShares == Deal(c, signingScalar, Mul(c, signingScalar, c.base), chainCode,
                              Keys(MakeSortedPartyIDs(parties)), coeffs)
  {
    var ids := Keys(MakeSortedPartyIDs(parties));
    keyShares := BuildShares(c, signingScalar, Mul(c, signingScalar, c.base), chainCode, ids, coeffs);
  }

  // ----- what a sharing means -----

  function Xis(states: seq<State>): (r: seq<int>)
    ensures |r| == |states|
  {
    seq(|states|, i requires 0 <= i < |states| => states[i].xi)
  }

  /** Every selection of more than threshold parties interpolates to the secret. */
  ghost predicate QuorumsReconstruct(ids: seq<nat>, xis: seq<int>, threshold: nat, secret: nat, n: int)
    requires IsPrime(n) && |xis| == |ids|
  {
    forall sel :: Selection(sel, |ids|) && |sel| > threshold ==>
      Interpolate(Pick(ids, sel), Pick(xis, sel), n) == secret % n
  }

  /** All parties hold the same public data for the secret, and reduced shares of it. */
  ghost predicate Represents(c: Curve, ids: seq<nat>, threshold: nat, states: seq<State>, secret: nat,
                             chainCode: seq<Byte>)
  {
    && IsPrime(c.n) && |states| == |ids| && states != []
    && (forall i :: 0 <= i < |states| ==>
          && 0 <= states[i].xi < c.n
          && states[i].pub == Mul(c, secret, c.base)
          && states[i].chainCode == chainCode)
    && QuorumsReconstruct(ids, Xis(states), threshold, secret, c.n)
  }

  /** Every copy of BigXj[j] is party j's share times the base point. */
  ghost predicate PublicSharesMatch(c: Curve, states: seq<State>) {
    forall i, j :: 0 <= i < |states| && 0 <= j < |states| && states[j].xi >= 0 ==>
      |states[i].bigX| == |states| && states[i].bigX[j] == Some(Mul(c, states[j].xi, c.base))
  }

  /** The dealer's shares represent the key, reduced or not; only a lone party (threshold 0) needs it reduced. */
  lemma DealtSharesRepresent(c: Curve, secret: nat, chainCode: seq<Byte>, ids: seq<nat>, coeffs: seq<nat>)
    requires IsGroup(c) && Points(ids, c.n) && ids != [] && (coeffs != [] || secret < c.n)
    requires Deal(c, secret, Mul(c, secret, c.base), chainCode, ids, coeffs).Some?
    ensures var states := Deal(c, secret, Mul(c, secret, c.base), chainCode, ids, coeffs).value;
            Represents(c, ids, |coeffs|, states, secret, chainCode) && PublicSharesMatch(c, states)
  {
    hide IsGroup, Mul, Points, Interpolate, Share;
    Basics(c);
    var states := Deal(c, secret, Mul(c, secret, c.base), chainCode, ids, coeffs).value;
    var shares := AllShares(secret, coeffs, ids, c.n);
    assert Xis(states) == shares;
    forall i | 0 <= i < |ids|
      ensures 0 <= shares[i] < c.n
    {
      ShareReducedIff(secret, coeffs, ids[i], c.n);
    }
    forall sel | Selection(sel, |ids|) && |sel| > |coeffs|
      ensures Interpolate(Pick(ids, sel), Pick(shares, sel), c.n) == secret % c.n
    {
      AnyQuorumReconstructs(secret, coeffs, ids, shares, sel, c.n);
    }
    var bigX := PublicShares(c, shares);
    forall j | 0 <= j < |shares|
      ensures bigX[j] == Some(Mul(c, shares[j], c.base))
    {
      assert bigX[j] in bigX;
    }
  }

  /** Dealing fails exactly when the public key is off the curve, or some share is 0 modulo the order on a curve
      without coordinates for the identity. */
  lemma DealSucceedsIff(c: Curve, secret: nat, pub: Point, chainCode: seq<Byte>, ids: seq<nat>, coeffs: seq<nat>)
    requires IsGroup(c) && c.n > 0
    ensures Deal(c, secret, pub, chainCode, ids, coeffs).Some? <==>
              && c.onCurve(pub)
              && (c.onCurve(c.zero) || forall i :: 0 <= i < |ids| ==> Share(secret, coeffs, ids[i], c.n) % c.n != 0)
  {
    hide IsGroup, Mul, Poly;
    var shares := AllShares(secret, coeffs, ids, c.n);
    var bigX := PublicShares(c, shares);
    hide Share;
    forall i | 0 <= i < |ids|
      ensures bigX[i] == None <==> !c.onCurve(c.zero) && shares[i] % c.n == 0
    {
      PointOnCurveIff(c, shares[i]);
    }
    assert forall i :: 0 <= i < |ids| ==> shares[i] == Share(secret, coeffs, ids[i], c.n);
    if None in bigX {
      var i :| 0 <= i < |bigX| && bigX[i] == None;
    } else {
      assert forall i :: 0 <= i < |ids| ==> bigX[i] in bigX;
    }
  }

  lemma PointOnCurveIff(c: Curve, x: nat)
    requires IsGroup(c) && c.n > 0
    ensures c.onCurve(Mul(c, x, c.base)) <==> c.onCurve(c.zero) || x % c.n != 0
  {
    MulIsZeroIff(c, x);
    MulMember(c, x, c.base);
  }

  // ----- derivation commutes with sharing -----

  /** derived[i] is what party i gets from its own share. */
  ghost predicate EachDerives(kind: Kind, c: Curve, hmac: Hmac, states: seq<State>, path: seq<nat>, derived: seq<State>)
    requires c.n > 0
  {
    |derived| == |states| &&
    forall i :: 0 <= i < |states| ==> Derive(kind, c, hmac, states[i], path) == Some(derived[i])
  }

  /** The child secret: the master secret plus the sum of the per-level tweaks. */
  function ChildSecret(kind: Kind, c: Curve, hmac: Hmac, secret: nat, chainCode: seq<Byte>, path: seq<nat>): (r: nat)
    requires c.n > 0 && PublicWalk(kind, c, hmac, Mul(c, secret, c.base), chainCode, path).Some?
  {
    (secret + PublicWalk(kind, c, hmac, Mul(c, secret, c.base), chainCode, path).value.tweak) % c.n
  }

  /** One party's derivation succeeds exactly when every party's does. */
  lemma PartiesSucceedTogether(kind: Kind, c: Curve, hmac: Hmac, ids: seq<nat>, threshold: nat, states: seq<State>,
                               secret: nat, chainCode: seq<Byte>, path: seq<nat>, i: nat, j: nat)
    requires Represents(c, ids, threshold, states, secret, chainCode) && i < |states| && j < |states|
    ensures var a, b := Derive(kind, c, hmac, states[i], path), Derive(kind, c, hmac, states[j], path);
            && (a.Some? <==> b.Some?)
            && (a.Some? ==> a.value.pub == b.value.pub && a.value.chainCode == b.value.chainCode)
  {
    DeriveFollowsWalk(kind, c, hmac, states[i], path);
    DeriveFollowsWalk(kind, c, hmac, states[j], path);
  }

  /** If the parties derive on their shares, the child shares represent the child secret with the
      child public key as its point. */
  lemma DerivedSharesRepresent(kind: Kind, c: Curve, hmac: Hmac, ids: seq<nat>, threshold: nat, states: seq<State>,
                               secret: nat, chainCode: seq<Byte>, path: seq<nat>, derived: seq<State>)
    requires IsGroup(c) && Points(ids, c.n)
    requires Represents(c, ids, threshold, states, secret, chainCode)
    requires EachDerives(kind, c, hmac, states, path, derived)
    ensures PublicWalk(kind, c, hmac, Mul(c, secret, c.base), chainCode, path).Some?
    ensures var w := PublicWalk(kind, c, hmac, Mul(c, secret, c.base), chainCode, path).value;
            Represents(c, ids, threshold, derived, ChildSecret(kind, c, hmac, secret, chainCode, path), w.chainCode)
  {
    hide IsGroup, Mul, Points, Interpolate, Derive, PublicWalk, QuorumsReconstruct;
    DeriveFollowsWalk(kind, c, hmac, states[0], path);
    assert Derive(kind, c, hmac, states[0], path) == Some(derived[0]);
    var w := PublicWalk(kind, c, hmac, Mul(c, secret, c.base), chainCode, path).value;
    WalkTracksScalar(kind, c, hmac, secret, chainCode, path);
    forall i | 0 <= i < |states|
      ensures derived[i].pub == w.pub && derived[i].chainCode == w.chainCode
      ensures derived[i].xi == (states[i].xi + w.tweak) % c.n
    {
      DeriveFollowsWalk(kind, c, hmac, states[i], path);
    }
    ShiftedQuorums(ids, Xis(states), Xis(derived), threshold, secret, w.tweak, c.n);
  }

  lemma ShiftedQuorum(ids: seq<nat>, xis: seq<int>, zis: seq<int>, sel: seq<nat>, secret: nat, t: nat, n: int)
    requires Points(ids, n) && |xis| == |zis| == |ids| && Selection(sel, |ids|) && sel != []
    requires forall i :: 0 <= i < |ids| ==> zis[i] == (xis[i] + t) % n
    requires Interpolate(Pick(ids, sel), Pick(xis, sel), n) == secret % n
    ensures Interpolate(Pick(ids, sel), Pick(zis, sel), n) == (secret + t) % n % n
  {
    assert IsPrime(n);
    hide Interpolate, Cong, Points;
    PickedPoints(ids, sel, n);
    var ys, zs := Pick(xis, sel), Pick(zis, sel);
    forall i | 0 <= i < |ys|
      ensures Cong(zs[i], ys[i] + t, n)
    {
      CongMod(ys[i] + t, n);
    }
    InterpolateShifted(Pick(ids, sel), ys, zs, t, n);
    ModShift(secret, 0, t, n);
    ModShift(secret, t, 0, n);
  }

  lemma ShiftedQuorums(ids: seq<nat>, xis: seq<int>, zis: seq<int>, threshold: nat, secret: nat, t: nat, n: int)
    requires Points(ids, n) && |xis| == |zis| == |ids|
    requires forall i :: 0 <= i < |ids| ==> zis[i] == (xis[i] + t) % n
    requires QuorumsReconstruct(ids, xis, threshold, secret, n)
    ensures QuorumsReconstruct(ids, zis, threshold, (secret + t) % n, n)
  {
    assert IsPrime(n);
    hide Interpolate, Points, Pick;
    forall sel | Selection(sel, |ids|) && |sel| > threshold
      ensures Interpolate(Pick(ids, sel), Pick(zis, sel), n) == (secret + t) % n % n
    {
      ShiftedQuorum(ids, xis, zis, sel, secret, t, n);
    }
  }

  /** Every copy of every public share still matches after derivation, unless the path moves that
      share to 0 on a curve without coordinates for the identity, where the copies become nil. */
  lemma DerivedPublicSharesMatch(kind: Kind, c: Curve, hmac: Hmac, ids: seq<nat>, threshold: nat, states: seq<State>,
                                 secret: nat, chainCode: seq<Byte>, path: seq<nat>, derived: seq<State>, i: nat, j: nat)
    requires IsGroup(c) && Represents(c, ids, threshold, states, secret, chainCode) && PublicSharesMatch(c, states)
    requires EachDerives(kind, c, hmac, states, path, derived) && i < |states| && j < |states|
    requires c.onCurve(c.zero) || forall k :: 0 <= k < |states| ==> states[k].xi != 0
    ensures j < |derived[i].bigX| && derived[j].xi >= 0
    ensures derived[i].bigX[j] ==
              if Vanishes(kind, c, hmac, Mul(c, secret, c.base), chainCode, path, states[j].xi) && !c.onCurve(c.zero)
              then None else Some(Mul(c, derived[j].xi, c.base))
  {
    hide IsGroup, Mul, Derive, PublicWalk, Vanishes;
    var x := states[j].xi;
    Basics(c);
    assert Derive(kind, c, hmac, states[i], path) == Some(derived[i]);
    assert Derive(kind, c, hmac, states[j], path) == Some(derived[j]);
    DeriveFollowsWalk(kind, c, hmac, states[j], path);
    DeriveTracksPublicShare(kind, c, hmac, states[i], path, j, x);
  }

  // ----- a public share that is lost -----

  /** An HMAC that always answers with the tweak t. */
  function Always(t: nat): Hmac {
    (key, data) => BEBytes(t, 32) + Zeros(32)
  }

  /** After one level whose tweak is n - x, and a second such level if the first leads to the identity,
      the public key is still a point. */
  function PathToZero(secret: nat, x: nat, n: int): (path: seq<nat>)
    requires n > 0
    ensures path != []
  {
    if secret % n == x then [0, 0] else [0]
  }

  lemma AlwaysTweaks(kind: Kind, c: Curve, pub: Point, chainCode: seq<Byte>, t: nat, index: nat)
    requires t < c.n <= Pow256(32)
    ensures Tweak(kind, ChildMac(Always(t), pub, chainCode, index), c.n) == Some(t)
  {
    var mac := ChildMac(Always(t), pub, chainCode, index);
    assert mac[..32] == BEBytes(t, 32);
    BEOfBEBytes(t, 32);
    ModUnique(t, 0, t, Pow256(32));
    ModUnique(t, 0, t, c.n);
  }

  lemma WalkAlways(kind: Kind, c: Curve, pub: Point, chainCode: seq<Byte>, secret: nat, x: nat)
    requires 0 < x < c.n <= Pow256(32)
    ensures var (hmac, path) := (Always(c.n - x), PathToZero(secret, x, c.n));
            && Vanishes(kind, c, hmac, pub, chainCode, path, x)
            && PublicWalk(kind, c, hmac, pub, chainCode, path).Some?
            && PublicWalk(kind, c, hmac, pub, chainCode, path).value.tweak == |path| * (c.n - x)
  {
    hide Always, ChildMac, Tweak, Mul, Pow256;
    var t: nat := c.n - x;
    var hmac := Always(t);
    var mac := ChildMac(hmac, pub, chainCode, 0);
    var next := c.add(pub, Mul(c, t, c.base));
    AlwaysTweaks(kind, c, pub, chainCode, t, 0);
    AlwaysTweaks(kind, c, next, mac[32..], t, 0);
    ModUnique(c.n, 1, 0, c.n);
    var last := ChildMac(hmac, next, mac[32..], 0);
    assert PublicWalk(kind, c, hmac, c.add(next, Mul(c, t, c.base)), last[32..], []).Some?;
    assert PublicWalk(kind, c, hmac, next, mac[32..], []).Some?;
    assert [0, 0][1..] == [0] && [0][1..] == [];
  }

  lemma StaysNonzero(secret: nat, x: nat, n: int)
    requires 0 < x < n
    ensures (secret + |PathToZero(secret, x, n)| * (n - x)) % n != 0
  {
    var q, r := secret / n, secret % n;
    if r == x {
      ModUnique(secret + 2 * (n - x), q + 1, n - x, n);
    } else if r > x {
      ModUnique(secret + (n - x), q + 1, r - x, n);
    } else {
      ModUnique(secret + (n - x), q, n + r - x, n);
    }
  }

  /** On a curve without coordinates for the identity no dealt public share is safe: for party j there are
      HMAC values and a path on which every party derives its child share, and every copy of BigXj[j] is nil. */
  lemma PublicShareLost(kind: Kind, c: Curve, ids: seq<nat>, threshold: nat, states: seq<State>, secret: nat,
                        chainCode: seq<Byte>, j: nat)
    returns (hmac: Hmac, path: seq<nat>)
    requires IsGroup(c) && !c.onCurve(c.zero) && c.n <= Pow256(32)
    requires Represents(c, ids, threshold, states, secret, chainCode) && PublicSharesMatch(c, states)
    requires j < |states| && states[j].xi != 0
    ensures c.n > 0 && path != []
    ensures forall i :: 0 <= i < |states| ==>
              var child := Derive(kind, c, hmac, states[i], path);
              child.Some? && j < |child.value.bigX| && child.value.bigX[j] == None
  {
    hide IsGroup, Mul, Pow256, Derive, PublicWalk, Vanishes, Always, PathToZero, QuorumsReconstruct;
    Basics(c);
    var pub, x := Mul(c, secret, c.base), states[j].xi;
    hmac, path := Always(c.n - x), PathToZero(secret, x, c.n);
    WalkAlways(kind, c, pub, chainCode, secret, x);
    WalkTracksScalar(kind, c, hmac, secret, chainCode, path);
    StaysNonzero(secret, x, c.n);
    var total := (secret + PublicWalk(kind, c, hmac, pub, chainCode, path).value.tweak) % c.n;
    ShareOnCurve(c, total);
    forall i | 0 <= i < |states|
      ensures var child := Derive(kind, c, hmac, states[i], path);
              child.Some? && j < |child.value.bigX| && child.value.bigX[j] == None
    {
      DeriveFollowsWalk(kind, c, hmac, states[i], path);
      DeriveTracksPublicShare(kind, c, hmac, states[i], path, j, x);
    }
  }
}
