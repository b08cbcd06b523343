/** Signing with a raw Ed25519 scalar (cmd/installer/ed25519_sign.go), and the verification of
    RFC 8032, section 5.1.7, that such signatures pass. */
module Ed25519Sign {
  import opened Bytes
  import opened Congruence
  import opened PrimeField
  import opened Group
  import opened Ed25519Codec
  import opened KeyDerivation
  import opened Recovery

  /** The order of the Ed25519 base point. */
  const L: int := 7237005577332262213973186563042994240857116359379907606001950938285454250989

  ghost function EncodePointOf(q: Point): (s: seq<Byte>)
    ensures |s| == 32
  {
    Encode(q.x, q.y)
  }

  /** A digest as a scalar: its 64 bytes, little-endian, reduced modulo the order. */
  function Uniform(digest: Digest): (r: int)
    ensures 0 <= r < L
  {
    LE(digest) % L
  }

  /** S, the response to the challenge k. */
  function Response(k: int, s: int, r: int): (t: int)
    ensures 0 <= t < L
  {
    (k * s + r) % L
  }

  /** R and S: the nonce r is the hash of the scalar and the message, the challenge that of R, the public key
      and the message. */
  ghost function Signature(c: Curve, sha: Sha512, scalar: nat, pubKey: seq<Byte>, message: seq<Byte>): (sig: seq<Byte>)
    ensures |sig| == 64
  {
    var s := scalar % L;
    var r := Uniform(sha(LEBytes(s, 32) + message));
    var encodedR := EncodePointOf(Mul(c, r, c.base));
    var k := Uniform(sha(encodedR + pubKey + message));
    encodedR + LEBytes(Response(k, s, r), 32)
  }

  lemma OrderFits()
    ensures L < Pow256(32)
  {
    Weights();
  }

  lemma ResponseReads(n: nat)
    requires n < L
    ensures LE(LEBytes(n, 32)) == n
  {
    OrderFits();
    LEOfLEBytes(n, 32);
    ModUnique(n, 0, n, Pow256(32));
  }

  /** The loop guard i < 32 of the source never cuts anything off: a reduced scalar has at most 32 bytes. */
  method SignEd25519WithScalar(c: Curve, p: int, sha: Sha512, scalar: nat, pubKey: seq<Byte>, message: seq<Byte>)
    returns (sig: array<Byte>)
    requires IsEdwards(c, p) && c.n == L
    ensures fresh(sig) && sig[..] == Signature(c, sha, scalar, pubKey, message) && sig.Length == 64
    ensures var r := LE(sha(LEBytes(scalar % L, 32) + message)) % L;
            && sig[..32] == EncodePointOf(Mul(c, r, c.base))
            && LE(sig[32..]) == (LE(sha(sig[..32] + pubKey + message)) % L * (scalar % L) + r) % L
  {
    hide IsGroup, IsEdwards, Mul, Encode, Decode, LE, LEBytes, Pow256;
    EdwardsIsGroup(c, p);
    OrderFits();
    var s := scalar % L;
    var scalarLE := LittleEndianBuffer(s, 32);
    var r := Uniform(sha(scalarLE[..] + message));
    var pointR := Mul(c, r, c.base);
    MulMember(c, r, c.base);
    EdwardsMember(c, p, pointR);
    var bytesR := EncodePoint(pointR.x, pointR.y);
    var k := Uniform(sha(bytesR[..] + pubKey + message));
    ResponseReads(Response(k, s, r));
    var bytesS := LittleEndianBuffer((k * s + r) % L, 32);
    sig := JoinHalves(bytesR, bytesS);
    assert sig[..32] == bytesR[..] && sig[32..] == bytesS[..];
  }

  /** The two copies into the 64-byte buffer. */
  method JoinHalves(first: array<Byte>, second: array<Byte>) returns (sig: array<Byte>)
    requires first.Length == second.Length == 32
    ensures fresh(sig) && sig[..] == first[..] + second[..]
  {
    sig := new Byte[64](i => 0);
    forall i | 0 <= i < 32 {
      sig[i] := first[i];
    }
    forall i | 0 <= i < 32 {
      sig[32 + i] := second[i];
    }
    assert sig[..] == first[..] + second[..];
  }

  /** Verification: S is canonical and S B = R + k A for the decoded points R and A, where k is the hash of R,
      the public key and the message. */
  ghost predicate Verifies(c: Curve, p: int, sha: Sha512, pubKey: seq<Byte>, message: seq<Byte>, sig: seq<Byte>)
    requires IsPrime(p) && p % 8 == 5
  {
    && |sig| == 64 && |pubKey| == 32
    && Decode(sig[..32], p).Some? && Decode(pubKey, p).Some?
    && LE(sig[32..]) < L
    && var (rx, ry) := Decode(sig[..32], p).value;
       var (ax, ay) := Decode(pubKey, p).value;
       && rx >= 0 && ry >= 0 && ax >= 0 && ay >= 0
       && Mul(c, LE(sig[32..]), c.base)
            == c.add(Point(rx, ry), Mul(c, LE(sha(sig[..32] + pubKey + message)) % L, Point(ax, ay)))
  }

  /** (k s + r) B = r B + k (s B), with the reduction of s and of the sum. */
  lemma SignatureEquation(c: Curve, scalar: nat, r: nat, k: nat)
    requires IsGroup(c) && c.n > 0
    ensures var s := scalar % c.n;
            k * s + r >= 0 &&
            Mul(c, (k * s + r) % c.n, c.base) == c.add(Mul(c, r, c.base), Mul(c, k, Mul(c, scalar, c.base)))
  {
    hide IsGroup, Mul;
    Basics(c);
    var s := scalar % c.n;
    MulReduced(c, scalar);
    MulMul(c, k, s, c.base);
    MulAdd(c, k * s, r, c.base);
    MulReduced(c, k * s + r);
    MulMember(c, k * s, c.base);
    MulMember(c, r, c.base);
    Closed(c, Mul(c, k * s, c.base), Mul(c, r, c.base));
  }

  /** For every scalar, reduced or clamped, and every message, the signature verifies under the
      encoding of the scalar's public point. */
  lemma SignaturesVerify(c: Curve, p: int, sha: Sha512, scalar: nat, message: seq<Byte>)
    requires IsEdwards(c, p) && c.n == L
    ensures IsPrime(p) && p % 8 == 5
    ensures var pubKey := EncodePointOf(Mul(c, scalar, c.base));
            Verifies(c, p, sha, pubKey, message, Signature(c, sha, scalar, pubKey, message))
  {
    hide IsGroup, IsEdwards, Mul, Encode, Decode, LEBytes, LE, Response;
    EdwardsIsGroup(c, p);
    var pubA := Mul(c, scalar, c.base);
    var pubKey := EncodePointOf(pubA);
    var s := scalar % L;
    var r := Uniform(sha(LEBytes(s, 32) + message));
    var pointR := Mul(c, r, c.base);
    var k := Uniform(sha(EncodePointOf(pointR) + pubKey + message));
    MulMember(c, scalar, c.base);
    MulMember(c, r, c.base);
    EdwardsMember(c, p, pubA);
    EdwardsMember(c, p, pointR);
    ResponseEquation(c, scalar, r, k);
    ResponseReads(Response(k, s, r));
    var sig := Signature(c, sha, scalar, pubKey, message);
    assert sig[..32] == EncodePointOf(pointR);
    assert sig[32..] == LEBytes(Response(k, s, r), 32);
  }

  lemma ResponseEquation(c: Curve, scalar: nat, r: nat, k: nat)
    requires IsGroup(c) && c.n == L
    ensures Mul(c, Response(k, scalar % L, r), c.base)
              == c.add(Mul(c, r, c.base), Mul(c, k, Mul(c, scalar, c.base)))
  {
    hide IsGroup, Mul;
    SignatureEquation(c, scalar, r, k);
  }

  /** What sweepSOL needs: the key that deriveScalarAtPath returns for a path signs for its own address. */
  lemma RecoveredKeySigns(c: Curve, p: int, hmac: Hmac, sha: Sha512, seed: seq<Byte>, path: string, message: seq<Byte>)
    requires IsEdwards(c, p) && c.n == L && RecoverEd(c, hmac, sha, seed, path).Some?
    ensures IsPrime(p) && p % 8 == 5
    ensures var (scalar, pub) := RecoverEd(c, hmac, sha, seed, path).value;
            var pubKey := EncodePointOf(pub);
            Verifies(c, p, sha, pubKey, message, Signature(c, sha, scalar, pubKey, message))
  {
    hide IsGroup, IsEdwards, Mul, Verifies, EdMaster, Clamped, PublicWalk, EdLevels;
    EdwardsIsGroup(c, p);
    NonemptyPath(path);
    var (key, cc) := EdMaster(hmac, seed);
    var s := Clamped(sha, key);
    var indices := PathParsers.ParseBIP32(path).value;
    EdLevelsFollowWalk(c, hmac, s, Mul(c, s, c.base), cc, indices);
    WalkTracksScalar(Ed25519, c, hmac, s, cc, indices);
    SignaturesVerify(c, p, sha, RecoverEd(c, hmac, sha, seed, path).value.0, message);
  }
}
