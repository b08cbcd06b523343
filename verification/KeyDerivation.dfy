/** BIP-32 style derivation of one party's key share (internal/tss/derivation.go): at every level
    the HMAC of the public key and the index gives a tweak that is added to the share, to the public
    point and to every party's public share. The hardened bit only enters the HMAC input. */
module KeyDerivation {
  import opened Bytes
  import opened Congruence
  import opened Options
  import opened Group
  import opened Ed25519Codec

  type Digest = s: seq<Byte> | |s| == 64 witness seq(64, i => 0)

  /** HMAC-SHA512 of (key, data), uninterpreted. */
  type Hmac = (seq<Byte>, seq<Byte>) -> Digest

  datatype Kind = Secp256k1 | Ed25519

  datatype State = State(xi: int, pub: Point, chainCode: seq<Byte>, bigX: seq<Option<Point>>)

  /** SEC1 compression: parity of y, then x in 32 big-endian bytes. Used for both curves. */
  function Compress(p: Point): (s: seq<Byte>)
    ensures |s| == 33
  {
    [if p.y % 2 == 0 then 2 else 3] + BEBytes(p.x, 32)
  }

  function ChildMac(hmac: Hmac, pub: Point, chainCode: seq<Byte>, index: nat): Digest {
    hmac(chainCode, Compress(pub) + BEBytes(index, 4))
  }

  /** The tweak of one level: on secp256k1 a value not below the order fails, on Ed25519 it is reduced. */
  function Tweak(kind: Kind, mac: Digest, n: int): (t: Option<nat>)
    requires n > 0
    ensures t.Some? ==> t.value < n
  {
    var il := BE(mac[..32]);
    match kind
    case Secp256k1 => if il < n then Some(il) else None
    case Ed25519 => Some(il % n)
  }

  /** crypto.NewECPoint: an error for coordinates that are off the curve. */
  function Checked(c: Curve, p: Point): Option<Point> {
    if c.onCurve(p) then Some(p) else None
  }

  /** Every present public share is moved by t; the error of NewECPoint leaves nil behind. */
  function Shift(c: Curve, bigX: seq<Option<Point>>, t: Point): (r: seq<Option<Point>>)
    ensures |r| == |bigX|
  {
    seq(|bigX|, j requires 0 <= j < |bigX| =>
      match bigX[j] case None => None case Some(p) => Checked(c, c.add(p, t)))
  }

  function Copy(c: Curve, bigX: seq<Option<Point>>): (r: seq<Option<Point>>)
    ensures |r| == |bigX|
  {
    seq(|bigX|, j requires 0 <= j < |bigX| =>
      match bigX[j] case None => None case Some(p) => Checked(c, p))
  }

  function Level(kind: Kind, c: Curve, hmac: Hmac, st: State, index: nat): Option<State>
    requires c.n > 0
  {
    var mac := ChildMac(hmac, st.pub, st.chainCode, index);
    match Tweak(kind, mac, c.n)
    case None => None
    case Some(t) =>
      var tG := Mul(c, t, c.base);
      Some(State((st.xi + t) % c.n, c.add(st.pub, tG), mac[32..], Shift(c, st.bigX, tG)))
  }

  function Levels(kind: Kind, c: Curve, hmac: Hmac, st: State, path: seq<nat>): Option<State>
    requires c.n > 0
    decreases path
  {
    if path == [] then Some(st) else
    match Level(kind, c, hmac, st, path[0])
    case None => None
    case Some(next) => Levels(kind, c, hmac, next, path[1..])
  }

  /** DeriveKey on one share: all levels, then the check of the derived public point. */
  function Derive(kind: Kind, c: Curve, hmac: Hmac, share: State, path: seq<nat>): Option<State>
    requires c.n > 0
  {
    match Levels(kind, c, hmac, share.(bigX := Copy(c, share.bigX)), path)
    case None => None
    case Some(st) => if c.onCurve(st.pub) then Some(st) else None
  }

  function Uncompressed(p: Point): (s: seq<Byte>)
    ensures |s| == 65
  {
    [4] + BEBytes(p.x, 32) + BEBytes(p.y, 32)
  }

  // ----- the two derivation methods -----

  /** compressPublicKey, compressPubKey and compressEdwardsPubKey. */
  method CompressPublicKey(p: Point) returns (compressed: array<Byte>)
    requires p.x < Pow256(32)
    ensures fresh(compressed) && compressed[..] == Compress(p)
  {
    hide BEBytes, Minimal, Pow256;
    compressed := new Byte[33](i => 0);
    compressed[0] := if p.y % 2 == 0 then 2 else 3;
    PadMinimal(p.x, 32);
    var xBytes := Minimal(p.x);
    forall i | 0 <= i < |xBytes| {
      compressed[33 - |xBytes| + i] := xBytes[i];
    }
    assert compressed[..] == [compressed[0]] + (Zeros(32 - |xBytes|) + xBytes);
  }

  /** Moves the public shares in place. */
  method ShiftInPlace(c: Curve, bigX: array<Option<Point>>, t: Point)
    modifies bigX
    ensures bigX[..] == Shift(c, old(bigX[..]), t)
  {
    for j := 0 to bigX.Length
      invariant bigX[..j] == Shift(c, old(bigX[..]), t)[..j]
      invariant bigX[j..] == old(bigX[..])[j..]
    {
      assert bigX[j] == bigX[j..][0];
      if bigX[j].Some? {
        bigX[j] := Checked(c, c.add(bigX[j].value, t));
      }
    }
  }

  lemma StepMember(c: Curve, pub: Point, t: nat)
    requires IsGroup(c) && c.member(pub)
    ensures c.member(c.add(pub, Mul(c, t, c.base)))
  {
    MulMember(c, t, c.base);
    Closed(c, pub, Mul(c, t, c.base));
  }

  lemma MemberFits(c: Curve, p: Point)
    requires IsGroup(c) && c.member(p)
    ensures p.x < Pow256(32) && p.y < Pow256(32) && c.n > 0
  {
  }

  /** The HMAC of one level, over the compressed parent point and the index. */
  method LevelMac(hmac: Hmac, pub: Point, chainCode: seq<Byte>, index: nat) returns (mac: Digest)
    requires pub.x < Pow256(32) && pub.y < Pow256(32)
    ensures mac == ChildMac(hmac, pub, chainCode, index)
  {
    hide BEBytes, Pow256;
    var compressed := CompressPublicKey(pub);
    mac := hmac(chainCode, compressed[..] + BEBytes(index, 4));
  }

  /** One turn of either derivation loop; bigX is updated in place. */
  method DeriveLevel(kind: Kind, c: Curve, hmac: Hmac, xi: int, pub: Point, chainCode: seq<Byte>,
                     bigX: array<Option<Point>>, index: nat)
    returns (ok: bool, childXi: int, childPub: Point, ir: seq<Byte>)
    requires IsGroup(c) && c.member(pub)
    modifies bigX
    ensures c.n > 0 && c.member(childPub)
    ensures Level(kind, c, hmac, State(xi, pub, chainCode, old(bigX[..])), index)
         == if ok then Some(State(childXi, childPub, ir, bigX[..])) else None
  {
    hide IsGroup, Mul, Shift, ChildMac, BE;
    MemberFits(c, pub);
    var mac := LevelMac(hmac, pub, chainCode, index);
    var il := BE(mac[..32]);
    if kind == Secp256k1 && il >= c.n {
      return false, xi, pub, chainCode;
    }
    if kind == Ed25519 {
      il := il % c.n;
    }
    StepMember(c, pub, il);
    var ilG := Mul(c, il, c.base);
    ShiftInPlace(c, bigX, ilG);
    return true, (xi + il) % c.n, c.add(pub, ilG), mac[32..];
  }

  /** deriveECDSA. */
  method DeriveECDSA(c: Curve, hmac: Hmac, share: State, path: seq<nat>)
    returns (derived: Option<State>, pubKey: seq<Byte>)
    requires IsGroup(c) && c.member(share.pub)
    ensures c.n > 0 && derived == Derive(Secp256k1, c, hmac, share, path)
    ensures derived.Some? ==> pubKey == Uncompressed(derived.value.pub)
  {
    hide IsGroup, Level;
    var parentPub;
    derived, parentPub := DeriveLoop(Secp256k1, c, hmac, share, path);
    MemberFits(c, parentPub);
    var xBuf := BigEndianBuffer(parentPub.x, 32);
    var yBuf := BigEndianBuffer(parentPub.y, 32);
    pubKey := [4] + xBuf[..] + yBuf[..];
  }

  /** deriveEdDSA. */
  method DeriveEdDSA(c: Curve, hmac: Hmac, share: State, path: seq<nat>)
    returns (derived: Option<State>, pubKey: seq<Byte>)
    requires IsGroup(c) && c.member(share.pub) && forall p :: c.member(p) ==> p.y < BIT_255
    ensures c.n > 0 && derived == Derive(Ed25519, c, hmac, share, path)
    ensures derived.Some? ==> pubKey == Encode(derived.value.pub.x, derived.value.pub.y)
  {
    hide IsGroup, Level;
    var parentPub;
    derived, parentPub := DeriveLoop(Ed25519, c, hmac, share, path);
    var encoded := EncodePoint(parentPub.x, parentPub.y);
    pubKey := encoded[..];
  }

  /** The loop over the path, with its deep copy of the public shares and the final point check. */
  method DeriveLoop(kind: Kind, c: Curve, hmac: Hmac, share: State, path: seq<nat>)
    returns (derived: Option<State>, parentPub: Point)
    requires IsGroup(c) && c.member(share.pub)
    ensures c.n > 0 && derived == Derive(kind, c, hmac, share, path)
    ensures c.member(parentPub) && (derived.Some? ==> parentPub == derived.value.pub)
  {
    hide IsGroup, Level;
    MemberFits(c, share.pub);
    parentPub := share.pub;
    var childShareXi, parentChainCode := share.xi, share.chainCode;
    var initial := Copy(c, share.bigX);
    var bigX := new Option<Point>[|initial|](j requires 0 <= j < |initial| => initial[j]);
    ghost var start := share.(bigX := initial);
    assert bigX[..] == initial && path[0..] == path;
    for i := 0 to |path|
      invariant c.member(parentPub)
      invariant Levels(kind, c, hmac, start, path)
             == Levels(kind, c, hmac, State(childShareXi, parentPub, parentChainCode, bigX[..]), path[i..])
    {
      assert path[i..][0] == path[i] && path[i..][1..] == path[i + 1..];
      var ok;
      ok, childShareXi, parentPub, parentChainCode :=
        DeriveLevel(kind, c, hmac, childShareXi, parentPub, parentChainCode, bigX, path[i]);
      if !ok {
        return None, parentPub;
      }
    }
    if !c.onCurve(parentPub) {
      return None, parentPub;
    }
    derived := Some(State(childShareXi, parentPub, parentChainCode, bigX[..]));
  }

  // ----- what a path does, from public data alone -----

  datatype Walk = Walk(pub: Point, chainCode: seq<Byte>, tweak: nat)

  /** The public side of a path: the child public point and the sum of the tweaks. No share enters. */
  function PublicWalk(kind: Kind, c: Curve, hmac: Hmac, pub: Point, chainCode: seq<Byte>, path: seq<nat>): Option<Walk>
    requires c.n > 0
    decreases path
  {
    if path == [] then Some(Walk(pub, chainCode, 0)) else
    var mac := ChildMac(hmac, pub, chainCode, path[0]);
    match Tweak(kind, mac, c.n)
    case None => None
    case Some(t) =>
      match PublicWalk(kind, c, hmac, c.add(pub, Mul(c, t, c.base)), mac[32..], path[1..])
      case None => None
      case Some(w) => Some(w.(tweak := t + w.tweak))
  }

  lemma ModShift(x: int, t: int, s: int, n: int)
    requires n > 0
    ensures ((x + t) % n + s) % n == (x + (t + s)) % n
  {
    CongMod(x + t, n);
    FromQuotient(s, s, 0, n);
    CongAdd((x + t) % n, x + t, s, s, n);
    CongIffMod((x + t) % n + s, x + (t + s), n);
  }

  /** The levels succeed exactly when the public walk does, and they add its tweak to the share. */
  lemma {:induction false} LevelsFollowWalk(kind: Kind, c: Curve, hmac: Hmac, st: State, path: seq<nat>)
    requires c.n > 0
    ensures match PublicWalk(kind, c, hmac, st.pub, st.chainCode, path)
            case None => Levels(kind, c, hmac, st, path) == None
            case Some(w) =>
              Levels(kind, c, hmac, st, path).Some? &&
              var child := Levels(kind, c, hmac, st, path).value;
              && child.pub == w.pub && child.chainCode == w.chainCode && |child.bigX| == |st.bigX|
              && child.xi == if path == [] then st.xi else (st.xi + w.tweak) % c.n
    decreases path
  {
    hide Mul, Shift, ChildMac, Tweak;
    if path != [] {
      var next := Level(kind, c, hmac, st, path[0]);
      if next.Some? {
        var t := Tweak(kind, ChildMac(hmac, st.pub, st.chainCode, path[0]), c.n).value;
        LevelsFollowWalk(kind, c, hmac, next.value, path[1..]);
        var rest := PublicWalk(kind, c, hmac, next.value.pub, next.value.chainCode, path[1..]);
        if rest.Some? {
          ModShift(st.xi, t, rest.value.tweak, c.n);
        }
      }
    }
  }

  /** Derivation of a share succeeds or fails by public data only, and then returns the share plus the
      total tweak beside the public point of the walk. */
  lemma DeriveFollowsWalk(kind: Kind, c: Curve, hmac: Hmac, share: State, path: seq<nat>)
    requires c.n > 0 && 0 <= share.xi < c.n
    ensures var w := PublicWalk(kind, c, hmac, share.pub, share.chainCode, path);
            var r := Derive(kind, c, hmac, share, path);
            && (r.Some? <==> w.Some? && c.onCurve(w.value.pub))
            && (r.Some? ==> (&& r.value.pub == w.value.pub && r.value.chainCode == w.value.chainCode
                             && |r.value.bigX| == |share.bigX|
                             && r.value.xi == (share.xi + w.value.tweak) % c.n))
  {
    LevelsFollowWalk(kind, c, hmac, share.(bigX := Copy(c, share.bigX)), path);
    if path == [] {
      ModUnique(share.xi, 0, share.xi, c.n);
    }
  }

  /** Walking from the point of a scalar ends at the point of that scalar plus the total tweak. */
  lemma {:induction false} WalkTracksScalar(kind: Kind, c: Curve, hmac: Hmac, k: nat, chainCode: seq<Byte>,
                                            path: seq<nat>)
    requires IsGroup(c) && c.n > 0
    requires PublicWalk(kind, c, hmac, Mul(c, k, c.base), chainCode, path).Some?
    ensures var w := PublicWalk(kind, c, hmac, Mul(c, k, c.base), chainCode, path).value;
            w.pub == Mul(c, (k + w.tweak) % c.n, c.base)
    decreases path
  {
    hide IsGroup, Mul;
    var pub := Mul(c, k, c.base);
    if path == [] {
      MulReduced(c, k);
    } else {
      var mac := ChildMac(hmac, pub, chainCode, path[0]);
      var t := Tweak(kind, mac, c.n).value;
      MulTweak(c, k, t);
      WalkTracksScalar(kind, c, hmac, (k + t) % c.n, mac[32..], path[1..]);
      var w := PublicWalk(kind, c, hmac, c.add(pub, Mul(c, t, c.base)), mac[32..], path[1..]).value;
      ModShift(k, t, w.tweak, c.n);
    }
  }

  /** Some level of the path moves the scalar x to 0. */
  ghost predicate Vanishes(kind: Kind, c: Curve, hmac: Hmac, pub: Point, chainCode: seq<Byte>, path: seq<nat>, x: int)
    requires c.n > 0
    decreases path
  {
    path != [] &&
    var mac := ChildMac(hmac, pub, chainCode, path[0]);
    match Tweak(kind, mac, c.n)
    case None => false
    case Some(t) =>
      || (x + t) % c.n == 0
      || Vanishes(kind, c, hmac, c.add(pub, Mul(c, t, c.base)), mac[32..], path[1..], (x + t) % c.n)
  }

  /** One level moves the public share x G to (x + t) G, and loses it exactly at the identity when
      the curve has no coordinates for the identity. */
  lemma ShiftedShare(c: Curve, x: nat, t: nat)
    requires IsGroup(c)
    ensures c.n > 0
    ensures Checked(c, c.add(Mul(c, x, c.base), Mul(c, t, c.base)))
         == if (x + t) % c.n == 0 && !c.onCurve(c.zero) then None else Some(Mul(c, (x + t) % c.n, c.base))
  {
    MulTweak(c, x, t);
    MulReduced(c, x + t);
    MulIsZeroIff(c, x + t);
    MulMember(c, (x + t) % c.n, c.base);
  }

  /** Public share j after the levels: exactly x_j' G, unless a level sent it to the identity and
      the curve cannot represent that point; then it stays nil. */
  lemma {:induction false} LevelsTrackPublicShare(kind: Kind, c: Curve, hmac: Hmac, st: State, path: seq<nat>,
                                                  j: nat, x: nat)
    requires IsGroup(c) && c.n > 0 && x < c.n
    requires j < |st.bigX| && st.bigX[j] == Some(Mul(c, x, c.base))
    requires Levels(kind, c, hmac, st, path).Some?
    ensures PublicWalk(kind, c, hmac, st.pub, st.chainCode, path).Some?
    ensures var child := Levels(kind, c, hmac, st, path).value;
            var w := PublicWalk(kind, c, hmac, st.pub, st.chainCode, path).value;
            j < |child.bigX| && child.bigX[j]
              == if Vanishes(kind, c, hmac, st.pub, st.chainCode, path, x) && !c.onCurve(c.zero) then None
                 else Some(Mul(c, (x + w.tweak) % c.n, c.base))
    decreases path
  {
    hide IsGroup, Mul;
    LevelsFollowWalk(kind, c, hmac, st, path);
    if path == [] {
      ModUnique(x, 0, x, c.n);
    } else {
      var mac := ChildMac(hmac, st.pub, st.chainCode, path[0]);
      var t := Tweak(kind, mac, c.n).value;
      var next := Level(kind, c, hmac, st, path[0]).value;
      ShiftedShare(c, x, t);
      if next.bigX[j].Some? {
        LevelsTrackPublicShare(kind, c, hmac, next, path[1..], j, (x + t) % c.n);
        var w := PublicWalk(kind, c, hmac, next.pub, next.chainCode, path[1..]).value;
        ModShift(x, t, w.tweak, c.n);
      } else {
        LevelsKeepNil(kind, c, hmac, next, path[1..], j);
      }
    }
  }

  lemma {:induction false} LevelsKeepNil(kind: Kind, c: Curve, hmac: Hmac, st: State, path: seq<nat>, j: nat)
    requires c.n > 0 && j < |st.bigX| && st.bigX[j] == None
    requires Levels(kind, c, hmac, st, path).Some?
    ensures var child := Levels(kind, c, hmac, st, path).value; j < |child.bigX| && child.bigX[j] == None
    decreases path
  {
    if path != [] {
      LevelsKeepNil(kind, c, hmac, Level(kind, c, hmac, st, path[0]).value, path[1..], j);
    }
  }

  lemma ShareOnCurve(c: Curve, x: nat)
    requires IsGroup(c) && x < c.n && (c.onCurve(c.zero) || x != 0)
    ensures c.onCurve(Mul(c, x, c.base))
  {
    ModUnique(x, 0, x, c.n);
    MulIsZeroIff(c, x);
    MulMember(c, x, c.base);
  }

  /** The same for a whole derivation. */
  lemma DeriveTracksPublicShare(kind: Kind, c: Curve, hmac: Hmac, share: State, path: seq<nat>, j: nat, x: nat)
    requires IsGroup(c) && c.n > 0 && x < c.n && (c.onCurve(c.zero) || x != 0)
    requires j < |share.bigX| && share.bigX[j] == Some(Mul(c, x, c.base))
    requires Derive(kind, c, hmac, share, path).Some?
    ensures PublicWalk(kind, c, hmac, share.pub, share.chainCode, path).Some?
    ensures var child := Derive(kind, c, hmac, share, path).value;
            var w := PublicWalk(kind, c, hmac, share.pub, share.chainCode, path).value;
            j < |child.bigX| && child.bigX[j]
              == if Vanishes(kind, c, hmac, share.pub, share.chainCode, path, x) && !c.onCurve(c.zero) then None
                 else Some(Mul(c, (x + w.tweak) % c.n, c.base))
  {
    hide IsGroup, Mul, Levels, PublicWalk, Vanishes;
    ShareOnCurve(c, x);
    LevelsTrackPublicShare(kind, c, hmac, share.(bigX := Copy(c, share.bigX)), path, j, x);
  }
}
