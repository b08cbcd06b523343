/** The installer's deployment and what comes after it (cmd/installer/handlers.go, mnemonic.go,
    internal/tss): keys from the seed, shares from the dealer, child shares at every party, and the child
    key recovered from the same seed. */
module Deployment {
  import opened Bytes
  import opened Options
  import opened Group
  import opened Ed25519Codec
  import opened PathParsers
  import opened Shamir
  import opened PartyIds
  import opened KeyDerivation
  import opened Dealer
  import opened Recovery

  /** The Shamir coordinates of the parties. */
  function Ids(names: seq<Name>): seq<nat> {
    Keys(MakeSortedPartyIDs(names))
  }

  /** Splitting the ECDSA key of a seed: the shares represent it, or one of the steps has returned an error. */
  method SplitECDSA(c: Curve, hmac: Hmac, seed: seq<Byte>, names: seq<Name>, preParams: nat, coeffs: seq<nat>)
    returns (states: Option<seq<State>>)
    requires IsGroup(c) && |coeffs| + 1 == |names|
    ensures c.n > 0
    ensures states == None ==>
              || EcdsaMaster(c, hmac, seed) == None || preParams != |names|
              || var (key, cc) := EcdsaMaster(c, hmac, seed).value;
                 Deal(c, key, Mul(c, key, c.base), cc, Ids(names), coeffs) == None
    ensures states.Some? ==>
              && EcdsaMaster(c, hmac, seed).Some?
              && var (key, cc) := EcdsaMaster(c, hmac, seed).value;
                 && Deal(c, key, Mul(c, key, c.base), cc, Ids(names), coeffs) == states
                 && (Points(Ids(names), c.n) ==>
                       Represents(c, Ids(names), |coeffs|, states.value, key, cc) && PublicSharesMatch(c, states.value))
  {
    hide IsGroup, Mul, Points, Deal, EcdsaMaster, MakeSortedPartyIDs, Represents, PublicSharesMatch;
    Basics(c);
    SortedCount(names);
    var master := DeriveECDSAKey(c, hmac, seed);
    if master == None {
      return None;
    }
    var (key, pubKey, cc) := master.value;
    states := DealerSetupECDSA(c, key, pubKey, cc, names, preParams, coeffs);
    if states.Some? && Points(Ids(names), c.n) {
      DealtSharesRepresent(c, key, cc, Ids(names), coeffs);
    }
  }

  /** Every party derives on its own share. */
  method DeriveAllECDSA(c: Curve, hmac: Hmac, states: seq<State>, path: seq<nat>) returns (children: seq<Option<State>>)
    requires IsGroup(c) && forall i :: 0 <= i < |states| ==> c.member(states[i].pub)
    ensures c.n > 0 && |children| == |states|
    ensures forall i :: 0 <= i < |states| ==> children[i] == Derive(Secp256k1, c, hmac, states[i], path)
  {
    hide IsGroup, Derive;
    Basics(c);
    children := [];
    for i := 0 to |states|
      invariant |children| == i
      invariant forall j :: 0 <= j < i ==> children[j] == Derive(Secp256k1, c, hmac, states[j], path)
    {
      var child, pubKey := DeriveECDSA(c, hmac, states[i], path);
      children := children + [child];
    }
  }

  /** Every party has derived a child, and together the children represent the secret. */
  ghost predicate ChildrenRepresent(c: Curve, names: seq<Name>, threshold: nat, children: seq<Option<State>>,
                                    secret: nat)
  {
    && (forall i :: 0 <= i < |children| ==> children[i].Some?)
    && exists derived, chainCode ::
         && |derived| == |children| && (forall i :: 0 <= i < |children| ==> children[i] == Some(derived[i]))
         && Represents(c, Ids(names), threshold, derived, secret, chainCode)
  }

  /** From one seed: deal, derive at every party, and recover. Whenever the dealing succeeds, the key can be
      recovered at the path, and the parties read the path, every party's derivation succeeds and their
      children represent the recovered key, whose point is the one returned with it. */
  method DealDeriveRecoverECDSA(c: Curve, hmac: Hmac, seed: seq<Byte>, names: seq<Name>, preParams: nat,
                                coeffs: seq<nat>, path: string)
    returns (states: Option<seq<State>>, children: seq<Option<State>>, recovered: Option<(nat, Point)>)
    requires IsGroup(c) && |coeffs| + 1 == |names| && Points(Ids(names), c.n)
    ensures states.Some? && recovered.Some? && ParsePath(path).Some? && ParsePath(path).value != [] ==>
              && |children| == |names|
              && ChildrenRepresent(c, names, |coeffs|, children, recovered.value.0)
              && recovered.value.1 == Mul(c, recovered.value.0, c.base)
  {
    hide IsGroup, Mul, Points, Deal, EcdsaMaster, MakeSortedPartyIDs, ParsePath, RecoverECDSA, Derive, EachDerives,
         PublicSharesMatch, ChildrenRepresent, Represents;
    states := SplitECDSA(c, hmac, seed, names, preParams, coeffs);
    recovered := DeriveECDSAKeyTSS(c, hmac, seed, path);
    children := [];
    var indices := ParsePathLoop(path);
    if states == None || indices == None {
      return;
    }
    DealtPubs(c, Ids(names), |coeffs|, states.value, EcdsaMaster(c, hmac, seed).value.0,
              EcdsaMaster(c, hmac, seed).value.1);
    SortedCount(names);
    children := DeriveAllECDSA(c, hmac, states.value, indices.value);
    if recovered.Some? && indices.value != [] {
      var derived, chainCode := EcdsaRecoveryAgrees(c, hmac, seed, names, coeffs, states.value, path);
      Gathered(Secp256k1, c, hmac, names, |coeffs|, states.value, indices.value, children, derived,
               recovered.value.0, chainCode);
    }
  }

  lemma DealtPubs(c: Curve, ids: seq<nat>, threshold: nat, states: seq<State>, secret: nat, chainCode: seq<Byte>)
    requires IsGroup(c) && Represents(c, ids, threshold, states, secret, chainCode)
    ensures |states| == |ids| && forall i :: 0 <= i < |states| ==> c.member(states[i].pub)
  {
    hide IsGroup, QuorumsReconstruct;
    Basics(c);
    MulMember(c, secret, c.base);
  }

  lemma Gathered(kind: Kind, c: Curve, hmac: Hmac, names: seq<Name>, threshold: nat, states: seq<State>,
                 path: seq<nat>, children: seq<Option<State>>, derived: seq<State>, secret: nat, chainCode: seq<Byte>)
    requires c.n > 0 && EachDerives(kind, c, hmac, states, path, derived) && |children| == |states|
    requires forall i :: 0 <= i < |states| ==> children[i] == Derive(kind, c, hmac, states[i], path)
    requires Represents(c, Ids(names), threshold, derived, secret, chainCode)
    ensures ChildrenRepresent(c, names, threshold, children, secret)
  {
    hide Derive, Represents;
    assert forall i :: 0 <= i < |children| ==> children[i] == Some(derived[i]);
  }

  // ----- Ed25519 -----

  /** deriveEdDSAKey: the clamped scalar that is dealt, and the master chain code. */
  method SplitEdDSA(c: Curve, p: int, hmac: Hmac, sha: Sha512, seed: seq<Byte>, names: seq<Name>, coeffs: seq<nat>)
    returns (states: Option<seq<State>>)
    requires IsEdwards(c, p) && |coeffs| + 1 == |names| && coeffs != []
    ensures c.n > 0
    ensures var (key, cc) := EdMaster(hmac, seed);
            var s := Clamped(sha, key);
            && states == Deal(c, s, Mul(c, s, c.base), cc, Ids(names), coeffs)
            && (states.Some? && Points(Ids(names), c.n) ==>
                  Represents(c, Ids(names), |coeffs|, states.value, s, cc) && PublicSharesMatch(c, states.value))
  {
    hide IsGroup, Mul, Points, Deal, EdMaster, Clamped, MakeSortedPartyIDs, Represents, PublicSharesMatch;
    EdwardsIsGroup(c, p);
    SortedCount(names);
    var key, cc := DeriveEdDSAMaster(hmac, seed);
    var s := ClampScalar(sha, key);
    states := DealerSetupEdDSA(c, s, cc, names, coeffs);
    if states.Some? && Points(Ids(names), c.n) {
      DealtSharesRepresent(c, s, cc, Ids(names), coeffs);
    }
  }

  method DeriveAllEdDSA(c: Curve, p: int, hmac: Hmac, states: seq<State>, path: seq<nat>)
    returns (children: seq<Option<State>>)
    requires IsEdwards(c, p) && forall i :: 0 <= i < |states| ==> c.member(states[i].pub)
    ensures c.n > 0 && |children| == |states|
    ensures forall i :: 0 <= i < |states| ==> children[i] == Derive(Ed25519, c, hmac, states[i], path)
  {
    hide IsGroup, Derive, OnCurve;
    Basics(c);
    children := [];
    for i := 0 to |states|
      invariant |children| == i
      invariant forall j :: 0 <= j < i ==> children[j] == Derive(Ed25519, c, hmac, states[j], path)
    {
      var child, pubKey := DeriveEdDSA(c, hmac, states[i], path);
      children := children + [child];
    }
  }

  /** The same for Ed25519, where recovery reads the master public key as 32 encoded bytes. */
  method DealDeriveRecoverEdDSA(c: Curve, p: int, hmac: Hmac, sha: Sha512, seed: seq<Byte>, masterPub: array<Byte>,
                                names: seq<Name>, coeffs: seq<nat>, path: string)
    returns (states: Option<seq<State>>, children: seq<Option<State>>, recovered: Option<(nat, seq<Byte>)>)
    requires IsEdwards(c, p) && |coeffs| + 1 == |names| && coeffs != [] && Points(Ids(names), c.n)
    requires masterPub[..] == MasterPub(c, sha, EdMaster(hmac, seed).0)
    ensures states.Some? && ParsePath(path).Some? && ParsePath(path).value != [] ==>
              && recovered.Some? && |children| == |names|
              && ChildrenRepresent(c, names, |coeffs|, children, recovered.value.0)
              && var q := Mul(c, recovered.value.0, c.base); recovered.value.1 == Encode(q.x, q.y)
  {
    hide IsGroup, IsEdwards, Mul, Points, Deal, EdMaster, Clamped, MasterPub, MakeSortedPartyIDs, ParsePath, RecoverEd,
         Derive, EachDerives, PublicSharesMatch, ChildrenRepresent, Represents, Encode;
    EdwardsIsGroup(c, p);
    states := SplitEdDSA(c, p, hmac, sha, seed, names, coeffs);
    recovered := DeriveScalarAtPath(c, p, hmac, sha, seed, masterPub, path);
    children := [];
    var indices := ParsePathLoop(path);
    if states == None || indices == None {
      return;
    }
    DealtPubs(c, Ids(names), |coeffs|, states.value, Clamped(sha, EdMaster(hmac, seed).0), EdMaster(hmac, seed).1);
    SortedCount(names);
    children := DeriveAllEdDSA(c, p, hmac, states.value, indices.value);
    if indices.value != [] {
      var derived, chainCode := EdRecoveryAgrees(c, p, hmac, sha, seed, names, coeffs, states.value, path);
      Gathered(Ed25519, c, hmac, names, |coeffs|, states.value, indices.value, children, derived,
               recovered.value.0, chainCode);
    }
  }
}
