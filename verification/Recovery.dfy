/** The installer's disaster recovery (cmd/installer/mnemonic.go, ed25519_sign.go): the full private
    key walks the same path as the key shares, at every level with the public point in the HMAC. */
module Recovery {
  import opened Bytes
  import opened Congruence
  import opened PrimeField
  import opened Options
  import opened Group
  import opened Ed25519Codec
  import opened PathParsers
  import opened Shamir
  import opened PartyIds
  import opened KeyDerivation
  import opened Dealer

  function Ascii(s: string): (b: seq<Byte>)
    requires forall i :: 0 <= i < |s| ==> s[i] < 128 as char
  {
    seq(|s|, i requires 0 <= i < |s| => s[i] as int)
  }

  // ----- secp256k1 -----

  /** The BIP-32 master key of a BIP-39 seed. */
  function EcdsaMaster(c: Curve, hmac: Hmac, seed: seq<Byte>): Option<(nat, seq<Byte>)> {
    var i := hmac(Ascii("Bitcoin seed"), seed);
    var key := BE(i[..32]);
    if key == 0 || key >= c.n then None else Some((key, i[32..]))
  }

  /** deriveECDSAKey: the two halves of the HMAC of the seed; a left half out of range is an error, otherwise the
      65 bytes handed to the dealer beside it are an uncompressed point, that of the key. */
  method DeriveECDSAKey(c: Curve, hmac: Hmac, seed: seq<Byte>) returns (r: Option<(nat, seq<Byte>, seq<Byte>)>)
    requires IsGroup(c)
    ensures r == None <==> EcdsaMaster(c, hmac, seed) == None
    ensures r.Some? <==> 0 < BE(hmac(Ascii("Bitcoin seed"), seed)[..32]) < c.n
    ensures r.Some? ==> var (key, pubKey, chainCode) := r.value;
                        && EcdsaMaster(c, hmac, seed) == Some((key, chainCode))
                        && key == BE(hmac(Ascii("Bitcoin seed"), seed)[..32])
                        && chainCode == hmac(Ascii("Bitcoin seed"), seed)[32..]
                        && |pubKey| == 65 && pubKey[0] == 4
                        && Point(BE(pubKey[1..33]), BE(pubKey[33..65])) == Mul(c, key, c.base)
  {
    hide IsGroup, Mul, Uncompressed;
    var i := hmac(Ascii("Bitcoin seed"), seed);
    var key := BE(i[..32]);
    var chainCode: seq<Byte> := i[32..];
    if key == 0 || key >= c.n {
      return None;
    }
    Basics(c);
    MulMember(c, key, c.base);
    UncompressedReadsBack(c, Mul(c, key, c.base));
    r := Some((key, Uncompressed(Mul(c, key, c.base)), chainCode));
  }

  /** The levels of DeriveECDSAKeyTSS; a child key of 0 is an error here. */
  function EcdsaLevels(c: Curve, hmac: Hmac, key: nat, chainCode: seq<Byte>, path: seq<nat>): Option<nat>
    requires c.n > 0
    decreases path
  {
    if path == [] then Some(key) else
    var mac := ChildMac(hmac, Mul(c, key, c.base), chainCode, path[0]);
    var il := BE(mac[..32]);
    if il >= c.n || (il + key) % c.n == 0 then None
    else EcdsaLevels(c, hmac, (il + key) % c.n, mac[32..], path[1..])
  }

  function RecoverECDSA(c: Curve, hmac: Hmac, seed: seq<Byte>, path: string): Option<nat>
    requires c.n > 0
  {
    match ParseBIP32(path)
    case None => None
    case Some(indices) =>
      match EcdsaMaster(c, hmac, seed)
      case None => None
      case Some((key, chainCode)) => EcdsaLevels(c, hmac, key, chainCode, indices)
  }

  /** One level of DeriveECDSAKeyTSS. */
  method WalkKeyLevel(c: Curve, hmac: Hmac, key: nat, chainCode: seq<Byte>, index: nat)
    returns (r: Option<(nat, seq<Byte>)>)
    requires IsGroup(c) && c.n > 0
    ensures var mac := ChildMac(hmac, Mul(c, key, c.base), chainCode, index);
            var il := BE(mac[..32]);
            r == if il >= c.n || (il + key) % c.n == 0 then None else Some(((il + key) % c.n, mac[32..]))
  {
    hide IsGroup, Mul, ChildMac, BE;
    var pub := Mul(c, key, c.base);
    Basics(c);
    MulMember(c, key, c.base);
    MemberFits(c, pub);
    var mac := LevelMac(hmac, pub, chainCode, index);
    var il := BE(mac[..32]);
    if il >= c.n {
      return None;
    }
    var childKey := (il + key) % c.n;
    if childKey == 0 {
      return None;
    }
    r := Some((childKey, mac[32..]));
  }

  /** The level loop of DeriveECDSAKeyTSS. */
  method WalkKey(c: Curve, hmac: Hmac, master: nat, masterChain: seq<Byte>, levels: seq<nat>) returns (r: Option<nat>)
    requires IsGroup(c) && c.n > 0
    ensures r == EcdsaLevels(c, hmac, master, masterChain, levels)
  {
    hide IsGroup, Mul, ChildMac, BE;
    var key: nat := master;
    var chainCode := masterChain;
    assert levels[0..] == levels;
    for i := 0 to |levels|
      invariant EcdsaLevels(c, hmac, master, masterChain, levels) == EcdsaLevels(c, hmac, key, chainCode, levels[i..])
    {
      assert levels[i..][0] == levels[i] && levels[i..][1..] == levels[i + 1..];
      var child := WalkKeyLevel(c, hmac, key, chainCode, levels[i]);
      if child == None {
        return None;
      }
      key, chainCode := child.value.0, child.value.1;
    }
    r := Some(key);
  }

  /** DeriveECDSAKeyTSS: the private key at a path, and the point its address comes from. */
  method DeriveECDSAKeyTSS(c: Curve, hmac: Hmac, seed: seq<Byte>, path: string) returns (r: Option<(nat, Point)>)
    requires IsGroup(c)
    ensures c.n > 0 && r == match RecoverECDSA(c, hmac, seed, path)
                            case None => None
                            case Some(key) => Some((key, Mul(c, key, c.base)))
  {
    hide IsGroup, Mul, ParseBIP32, EcdsaLevels;
    Basics(c);
    var indices := ParseBIP32PathLoop(path);
    if indices == None {
      return None;
    }
    var master := EcdsaMaster(c, hmac, seed);
    if master == None {
      return None;
    }
    var key := WalkKey(c, hmac, master.value.0, master.value.1, indices.value);
    r := match key case None => None case Some(k) => Some((k, Mul(c, k, c.base)));
  }

  /** The recovery succeeds exactly when the public walk does and no level moves the key to 0, and
      then it is the master key plus the tweaks of that walk. */
  lemma {:induction false} EcdsaLevelsFollowWalk(c: Curve, hmac: Hmac, key: nat, chainCode: seq<Byte>, path: seq<nat>)
    requires IsGroup(c) && c.n > 0 && 0 < key < c.n
    ensures var w := PublicWalk(Secp256k1, c, hmac, Mul(c, key, c.base), chainCode, path);
            var r := EcdsaLevels(c, hmac, key, chainCode, path);
            && (r.Some? <==> w.Some? && !Vanishes(Secp256k1, c, hmac, Mul(c, key, c.base), chainCode, path, key))
            && (r.Some? ==> r.value == (key + w.value.tweak) % c.n && r.value > 0)
    decreases path
  {
    hide IsGroup, Mul, ChildMac;
    if path == [] {
      ModUnique(key, 0, key, c.n);
    } else {
      var mac := ChildMac(hmac, Mul(c, key, c.base), chainCode, path[0]);
      var il := BE(mac[..32]);
      if il < c.n && (key + il) % c.n != 0 {
        var child := (key + il) % c.n;
        MulTweak(c, key, il);
        EcdsaLevelsFollowWalk(c, hmac, child, mac[32..], path[1..]);
        var rest := PublicWalk(Secp256k1, c, hmac, Mul(c, child, c.base), mac[32..], path[1..]);
        if rest.Some? {
          ModShift(key, il, rest.value.tweak, c.n);
        }
      }
    }
  }

  lemma MasterInRange(c: Curve, hmac: Hmac, seed: seq<Byte>)
    requires EcdsaMaster(c, hmac, seed).Some?
    ensures 0 < EcdsaMaster(c, hmac, seed).value.0 < c.n
  {
  }

  lemma SortedCount(names: seq<Name>)
    ensures |MakeSortedPartyIDs(names)| == |names|
  {
    SortedIsPermutation(names);
    assert |multiset(names)| == |names|;
    assert |multiset(MakeSortedPartyIDs(names))| == |MakeSortedPartyIDs(names)|;
  }

  /** The parties' derivations all succeed when the walk does and the child key is not 0 modulo the order,
      or the identity has coordinates. */
  lemma DeriveTogether(kind: Kind, c: Curve, hmac: Hmac, ids: seq<nat>, threshold: nat, states: seq<State>,
                       secret: nat, chainCode: seq<Byte>, path: seq<nat>)
    returns (derived: seq<State>, childChain: seq<Byte>)
    requires IsGroup(c) && c.n > 0 && Points(ids, c.n) && Represents(c, ids, threshold, states, secret, chainCode)
    requires PublicWalk(kind, c, hmac, Mul(c, secret, c.base), chainCode, path).Some?
    requires c.onCurve(c.zero) || ChildSecret(kind, c, hmac, secret, chainCode, path) != 0
    ensures EachDerives(kind, c, hmac, states, path, derived)
    ensures Represents(c, ids, threshold, derived, ChildSecret(kind, c, hmac, secret, chainCode, path), childChain)
  {
    hide IsGroup, Mul, Points, Derive, PublicWalk, QuorumsReconstruct;
    var w := PublicWalk(kind, c, hmac, Mul(c, secret, c.base), chainCode, path).value;
    var child := ChildSecret(kind, c, hmac, secret, chainCode, path);
    WalkTracksScalar(kind, c, hmac, secret, chainCode, path);
    ShareOnCurve(c, child);
    forall i | 0 <= i < |states|
      ensures Derive(kind, c, hmac, states[i], path).Some?
    {
      DeriveFollowsWalk(kind, c, hmac, states[i], path);
    }
    derived := seq(|states|, i requires 0 <= i < |states| => Derive(kind, c, hmac, states[i], path).value);
    childChain := w.chainCode;
    DerivedSharesRepresent(kind, c, hmac, ids, threshold, states, secret, chainCode, path, derived);
  }

  lemma PathBothRead(path: string)
    requires ParsePath(path).Some? && ParsePath(path).value != []
    ensures ParseBIP32(path) == ParsePath(path)
  {
    InstallerReadsWhatPartiesRead(path);
  }

  lemma RecoveredKeyIsShared(c: Curve, hmac: Hmac, key: nat, cc: seq<Byte>, ids: seq<nat>, threshold: nat,
                             states: seq<State>, indices: seq<nat>)
    returns (derived: seq<State>, chainCode: seq<Byte>)
    requires IsGroup(c) && c.n > 0 && Points(ids, c.n) && 0 < key < c.n
    requires Represents(c, ids, threshold, states, key, cc)
    requires EcdsaLevels(c, hmac, key, cc, indices).Some?
    ensures EachDerives(Secp256k1, c, hmac, states, indices, derived)
    ensures Represents(c, ids, threshold, derived, EcdsaLevels(c, hmac, key, cc, indices).value, chainCode)
  {
    hide IsGroup, Mul, Points, EcdsaLevels, PublicWalk, Vanishes, Represents, EachDerives;
    EcdsaLevelsFollowWalk(c, hmac, key, cc, indices);
    derived, chainCode := DeriveTogether(Secp256k1, c, hmac, ids, threshold, states, key, cc, indices);
  }

  /** Recovery agrees with threshold derivation on secp256k1. From the dealt shares of the master
      key of a seed: whenever the key recovered at a path exists and the parties read that path, every
      party's derivation succeeds too, and the child shares represent the recovered key. */
  lemma EcdsaRecoveryAgrees(c: Curve, hmac: Hmac, seed: seq<Byte>, names: seq<Name>, coeffs: seq<nat>,
                            states: seq<State>, path: string)
    returns (derived: seq<State>, chainCode: seq<Byte>)
    requires IsGroup(c) && names != []
    requires Points(Keys(MakeSortedPartyIDs(names)), c.n)
    requires EcdsaMaster(c, hmac, seed).Some?
    requires var (key, cc) := EcdsaMaster(c, hmac, seed).value;
             Deal(c, key, Mul(c, key, c.base), cc, Keys(MakeSortedPartyIDs(names)), coeffs) == Some(states)
    requires RecoverECDSA(c, hmac, seed, path).Some?
    requires ParsePath(path).Some? && ParsePath(path).value != []
    ensures EachDerives(Secp256k1, c, hmac, states, ParsePath(path).value, derived)
    ensures Represents(c, Keys(MakeSortedPartyIDs(names)), |coeffs|, derived,
                       RecoverECDSA(c, hmac, seed, path).value, chainCode)
  {
    hide IsGroup, Mul, Points, Deal, EcdsaMaster, ParsePath, ParseBIP32, MakeSortedPartyIDs, EcdsaLevels,
         Represents, EachDerives, PublicSharesMatch;
    Basics(c);
    var (key, cc) := EcdsaMaster(c, hmac, seed).value;
    MasterInRange(c, hmac, seed);
    var ids := Keys(MakeSortedPartyIDs(names));
    SortedCount(names);
    PathBothRead(path);
    DealtSharesRepresent(c, key, cc, ids, coeffs);
    derived, chainCode := RecoveredKeyIsShared(c, hmac, key, cc, ids, |coeffs|, states, ParsePath(path).value);
  }

  /** The 65 bytes that DeriveECDSAKey hands to the dealer read back as the same point. */
  lemma UncompressedReadsBack(c: Curve, p: Point)
    requires IsGroup(c) && c.member(p)
    ensures var b := Uncompressed(p); b[0] == 4 && Point(BE(b[1..33]), BE(b[33..65])) == p
  {
    hide IsGroup, BE, BEBytes, Pow256;
    MemberFits(c, p);
    var b := Uncompressed(p);
    assert b[1..33] == BEBytes(p.x, 32) && b[33..65] == BEBytes(p.y, 32);
    BEOfBEBytes(p.x, 32);
    BEOfBEBytes(p.y, 32);
  }

  // ----- Ed25519 -----

  /** SHA-512, uninterpreted. */
  type Sha512 = seq<Byte> -> Digest

  /** The Edwards curve of Ed25519 over the field of p elements: group laws, reduced coordinates, the
      curve equation, and an identity that has coordinates. */
  ghost predicate IsEdwards(c: Curve, p: int) {
    && IsGroup(c) && c.n <= Pow256(32) && c.onCurve(c.zero)
    && IsPrime(p) && p % 8 == 5 && p <= BIT_255 && 121666 % p != 0
    && forall q :: c.member(q) ==> q.x < p && q.y < p && OnCurve(q.x, q.y, p)
  }

  /** The hypotheses can be met, over the field of five elements. */
  lemma PairIsEdwards()
    ensures IsEdwards(Pair(), 5)
  {
    PairIsGroup();
    hide IsGroup;
    assert Pow256(32) >= 2 by { Pow256Monotone(1, 32); }
    hide Pow256;
    assert IsPrime(5);
    forall q | Pair().member(q) ensures OnCurve(q.x, q.y, 5) {
      assert q.x == 0 && (q.y == 1 || q.y == 4);
      FromQuotient(q.y * q.y, 1, if q.y == 1 then 0 else 3, 5);
      assert CurveD(5) * (q.x * q.x) * (q.y * q.y) == 0;
    }
  }

  lemma EdwardsMember(c: Curve, p: int, q: Point)
    requires IsEdwards(c, p) && c.member(q)
    ensures IsGroup(c) && IsPrime(p) && p % 8 == 5 && q.x < p && q.y < p && q.y < BIT_255
    ensures Decode(Encode(q.x, q.y), p) == Some((q.x, q.y))
  {
    hide IsGroup, OnCurve, Decode, Encode;
    assert OnCurve(q.x, q.y, p);
    DecodeUndoesEncode(q.x, q.y, p);
  }

  /** m/44'/501'/0'/0', every level hardened. */
  const SLIP_PATH: seq<nat> := [0x8000_002C, 0x8000_01F5, 0x8000_0000, 0x8000_0000]

  function SlipLevels(hmac: Hmac, key: seq<Byte>, chainCode: seq<Byte>, path: seq<nat>): (seq<Byte>, seq<Byte>)
    decreases path
  {
    if path == [] then (key, chainCode) else
    var i := hmac(chainCode, [0] + key + BEBytes(path[0], 4));
    SlipLevels(hmac, i[..32], i[32..], path[1..])
  }

  /** The SLIP-0010 master seed and chain code of a BIP-39 seed. */
  function EdMaster(hmac: Hmac, seed: seq<Byte>): (seq<Byte>, seq<Byte>) {
    var i := hmac(Ascii("ed25519 seed"), seed);
    SlipLevels(hmac, i[..32], i[32..], SLIP_PATH)
  }

  /** deriveEdDSAMaster. */
  method DeriveEdDSAMaster(hmac: Hmac, seed: seq<Byte>) returns (key: seq<Byte>, chainCode: seq<Byte>)
    ensures (key, chainCode) == EdMaster(hmac, seed)
  {
    var i := hmac(Ascii("ed25519 seed"), seed);
    key, chainCode := i[..32], i[32..];
    var start := (key, chainCode);
    assert SLIP_PATH[0..] == SLIP_PATH;
    for k := 0 to |SLIP_PATH|
      invariant SlipLevels(hmac, start.0, start.1, SLIP_PATH) == SlipLevels(hmac, key, chainCode, SLIP_PATH[k..])
    {
      assert SLIP_PATH[k..][0] == SLIP_PATH[k] && SLIP_PATH[k..][1..] == SLIP_PATH[k + 1..];
      var data := [0] + key + BEBytes(SLIP_PATH[k], 4);
      i := hmac(chainCode, data);
      key, chainCode := i[..32], i[32..];
    }
  }

  /** The clamped scalar of a master seed (RFC 8032, section 5.1.5). */
  function ClampedBytes(h: Digest): (r: seq<Byte>)
    ensures |r| == 32
  {
    h[..32][0 := h[0] - h[0] % 8][31 := 64 + h[31] % 64]
  }

  function Clamped(sha: Sha512, key: seq<Byte>): nat {
    LE(ClampedBytes(sha(key)))
  }

  lemma MaskAndSet(b: int)
    requires 0 <= b < 256
    ensures 64 + b % 64 == if b % 128 < 64 then b % 128 + 64 else b % 128
  {
  }

  /** h[0] &= 248, h[31] &= 127, h[31] |= 64, and the reversal to big-endian. */
  method ClampScalar(sha: Sha512, key: seq<Byte>) returns (scalar: nat)
    ensures scalar == Clamped(sha, key)
  {
    var d := sha(key);
    var h := new Byte[64](i requires 0 <= i < 64 => d[i]);
    h[0] := h[0] - h[0] % 8;
    MaskAndSet(h[31]);
    h[31] := h[31] % 128;
    if h[31] < 64 {
      h[31] := h[31] + 64;
    }
    assert h[31] == 64 + d[31] % 64;
    assert h[..32] == d[..32][0 := h[0]][31 := h[31]];
    scalar := ReadReversed(h);
  }

  /** The loop that reverses the low 32 bytes for big.Int. */
  method ReadReversed(h: array<Byte>) returns (scalar: nat)
    requires h.Length == 64
    ensures scalar == LE(h[..32])
  {
    hide LE, BE;
    var reversed := new Byte[32](i => 0);
    for i := 0 to 32
      invariant reversed[..i] == Reverse(h[..32])[..i]
    {
      reversed[i] := h[31 - i];
    }
    assert reversed[..] == Reverse(h[..32]);
    assert Reverse(reversed[..]) == h[..32];
    LEOfReverse(reversed[..]);
    scalar := BE(reversed[..]);
  }

  /** The clamped scalar is 2^254 plus the low 254 bits of the hash, the lowest three cleared. */
  lemma ClampedIs(sha: Sha512, key: seq<Byte>)
    ensures Clamped(sha, key) == BIT_255 / 2 + 8 * (LE(sha(key)[..32]) % (BIT_255 / 2) / 8)
  {
    var a, b := sha(key)[..32], ClampedBytes(sha(key));
    var middle := LE(a[1..31]);
    assert LE(a[..31]) == a[0] + 256 * middle by { assert a[..31][1..] == a[1..31]; }
    assert LE(b[..31]) == b[0] + 256 * middle by { assert b[..31][1..] == a[1..31]; }
    hide LE;
    TopByte(a);
    TopByte(b);
    hide Clamped, ClampedBytes;
    ClampBits(a[0], middle, a[31]);
  }

  /** 2^245 */
  const EIGHTH: int := 0x20_000000000000000000000000000000000000000000000000000000000000

  lemma ClampBits(first: int, middle: int, top: int)
    requires 0 <= first < 256 && middle >= 0 && first + 256 * middle < WEIGHT_31 && 0 <= top < 256
    ensures first - first % 8 + 256 * middle + (64 + top % 64) * WEIGHT_31
              == BIT_255 / 2 + 8 * ((first + 256 * middle + top * WEIGHT_31) % (BIT_255 / 2) / 8)
  {
    var kept := top % 64;
    TopBits(first + 256 * middle, top);
    LowBits(first, 32 * middle + kept * EIGHTH);
    assert first + 8 * (32 * middle + kept * EIGHTH) == first + 256 * middle + kept * WEIGHT_31;
    assert (64 + kept) * WEIGHT_31 == BIT_255 / 2 + kept * WEIGHT_31;
  }

  lemma TopBits(low: int, top: int)
    requires 0 <= low < WEIGHT_31 && 0 <= top < 256
    ensures (low + top * WEIGHT_31) % (BIT_255 / 2) == low + top % 64 * WEIGHT_31
  {
    assert top == top / 64 * 64 + top % 64;
    ModUnique(low + top * WEIGHT_31, top / 64, low + top % 64 * WEIGHT_31, BIT_255 / 2);
  }

  lemma LowBits(first: int, rest: int)
    ensures 8 * ((first + 8 * rest) / 8) == first - first % 8 + 8 * rest
  {
    ModUnique(first + 8 * rest, first / 8 + rest, first % 8, 8);
  }

  /** So it is a multiple of 8 in [2^254, 2^255), never reduced modulo the group order. */
  lemma ClampedRange(sha: Sha512, key: seq<Byte>)
    ensures Clamped(sha, key) % 8 == 0 && BIT_255 / 2 <= Clamped(sha, key) < BIT_255
  {
    hide Clamped, LE;
    ClampedIs(sha, key);
  }

  /** The levels of deriveScalarAtPath and ExportSolanaKeyAtPath: scalar and point move together. */
  function EdLevels(c: Curve, hmac: Hmac, scalar: nat, pub: Point, chainCode: seq<Byte>, path: seq<nat>): (nat, Point)
    requires c.n > 0
    decreases path
  {
    if path == [] then (scalar, pub) else
    var mac := ChildMac(hmac, pub, chainCode, path[0]);
    var il := BE(mac[..32]) % c.n;
    EdLevels(c, hmac, (scalar + il) % c.n, c.add(pub, Mul(c, il, c.base)), mac[32..], path[1..])
  }

  /** The public key that ed25519.NewKeyFromSeed reports for a master seed. */
  ghost function MasterPub(c: Curve, sha: Sha512, key: seq<Byte>): seq<Byte> {
    var q := Mul(c, Clamped(sha, key), c.base);
    Encode(q.x, q.y)
  }

  /** The recovered scalar and point at a path. */
  function RecoverEd(c: Curve, hmac: Hmac, sha: Sha512, seed: seq<Byte>, path: string): Option<(nat, Point)>
    requires c.n > 0
  {
    match ParseBIP32(path)
    case None => None
    case Some(indices) =>
      var (key, chainCode) := EdMaster(hmac, seed);
      Some(EdLevels(c, hmac, Clamped(sha, key), Mul(c, Clamped(sha, key), c.base), chainCode, indices))
  }

  method WalkScalar(c: Curve, hmac: Hmac, master: nat, masterPub: Point, masterChain: seq<Byte>, levels: seq<nat>)
    returns (scalar: nat, pub: Point)
    requires IsGroup(c) && c.n > 0 && c.member(masterPub)
    ensures (scalar, pub) == EdLevels(c, hmac, master, masterPub, masterChain, levels)
    ensures c.member(pub)
    ensures levels != [] ==> scalar < c.n
  {
    hide IsGroup, Mul, ChildMac, BE;
    scalar, pub := master, masterPub;
    var chainCode := masterChain;
    assert levels[0..] == levels;
    for i := 0 to |levels|
      invariant c.member(pub) && (i > 0 ==> scalar < c.n)
      invariant EdLevels(c, hmac, master, masterPub, masterChain, levels)
             == EdLevels(c, hmac, scalar, pub, chainCode, levels[i..])
    {
      assert levels[i..][0] == levels[i] && levels[i..][1..] == levels[i + 1..];
      MemberFits(c, pub);
      var mac := LevelMac(hmac, pub, chainCode, levels[i]);
      var il := BE(mac[..32]) % c.n;
      StepMember(c, pub, il);
      scalar := (scalar + il) % c.n;
      pub := c.add(pub, Mul(c, il, c.base));
      chainCode := mac[32..];
    }
  }

  /** deriveScalarAtPath. The master public key comes as the 32 bytes of NewKeyFromSeed and is decoded;
      the decoder's nil cases do not arise. */
  method DeriveScalarAtPath(c: Curve, p: int, hmac: Hmac, sha: Sha512, seed: seq<Byte>, masterPub: array<Byte>,
                            path: string)
    returns (r: Option<(nat, seq<Byte>)>)
    requires IsEdwards(c, p) && masterPub[..] == MasterPub(c, sha, EdMaster(hmac, seed).0)
    ensures c.n > 0 && (r.Some? <==> RecoverEd(c, hmac, sha, seed, path).Some?)
    ensures r.Some? ==> var (scalar, pub) := RecoverEd(c, hmac, sha, seed, path).value;
                        r.value == (scalar, Encode(pub.x, pub.y)) && scalar < c.n && c.member(pub)
  {
    hide IsGroup, IsEdwards, Mul, ParseBIP32, EdLevels, Encode, Decode, Clamped, EdMaster;
    EdwardsIsGroup(c, p);
    var indices := ParseBIP32PathLoop(path);
    if indices == None {
      return None;
    }
    NonemptyPath(path);
    var masterSeed, masterCC := DeriveEdDSAMaster(hmac, seed);
    var scalar := ClampScalar(sha, masterSeed);
    ghost var q := Mul(c, scalar, c.base);
    MulMember(c, scalar, c.base);
    EdwardsMember(c, p, q);
    var decoded := DecodePoint(masterPub, p);
    var start := Point(decoded.value.0, decoded.value.1);
    var pub;
    scalar, pub := WalkScalar(c, hmac, scalar, start, masterCC, indices.value);
    EdwardsMember(c, p, pub);
    var encoded := EncodePoint(pub.x, pub.y);
    r := Some((scalar, encoded[..]));
  }

  lemma NonemptyPath(path: string)
    requires ParseBIP32(path).Some?
    ensures ParseBIP32(path).value != []
  {
  }

  lemma EdwardsIsGroup(c: Curve, p: int)
    requires IsEdwards(c, p)
    ensures IsGroup(c) && c.n > 0 && c.onCurve(c.zero) && c.member(c.base) && c.n <= Pow256(32)
    ensures IsPrime(p) && p % 8 == 5
  {
  }

  /** ExportSolanaKeyAtPath: the scalar in little-endian, then the public key. */
  method ExportSolanaKeyAtPath(c: Curve, p: int, hmac: Hmac, sha: Sha512, seed: seq<Byte>, masterPub: array<Byte>,
                               path: string)
    returns (keypair: Option<seq<Byte>>)
    requires IsEdwards(c, p) && masterPub[..] == MasterPub(c, sha, EdMaster(hmac, seed).0)
    ensures c.n > 0 && (keypair.Some? <==> RecoverEd(c, hmac, sha, seed, path).Some?)
    ensures keypair.Some? ==> var (scalar, pub) := RecoverEd(c, hmac, sha, seed, path).value;
                              keypair.value == LEBytes(scalar, 32) + Encode(pub.x, pub.y)
  {
    hide IsGroup, IsEdwards, Mul, RecoverEd, Encode, EdMaster, MasterPub;
    EdwardsIsGroup(c, p);
    var r := DeriveScalarAtPath(c, p, hmac, sha, seed, masterPub, path);
    if r == None {
      return None;
    }
    var scalarLE := LittleEndianBuffer(r.value.0, 32);
    keypair := Some(scalarLE[..] + r.value.1);
  }

  /** Scalar and point of the recovery are those of the public walk. */
  lemma {:induction false} EdLevelsFollowWalk(c: Curve, hmac: Hmac, scalar: nat, pub: Point, chainCode: seq<Byte>,
                                              path: seq<nat>)
    requires c.n > 0
    ensures PublicWalk(Ed25519, c, hmac, pub, chainCode, path).Some?
    ensures var w := PublicWalk(Ed25519, c, hmac, pub, chainCode, path).value;
            EdLevels(c, hmac, scalar, pub, chainCode, path)
              == (if path == [] then scalar else (scalar + w.tweak) % c.n, w.pub)
    decreases path
  {
    hide Mul, ChildMac;
    if path != [] {
      var mac := ChildMac(hmac, pub, chainCode, path[0]);
      var il := BE(mac[..32]) % c.n;
      var next := c.add(pub, Mul(c, il, c.base));
      EdLevelsFollowWalk(c, hmac, (scalar + il) % c.n, next, mac[32..], path[1..]);
      var w := PublicWalk(Ed25519, c, hmac, next, mac[32..], path[1..]).value;
      ModShift(scalar, il, w.tweak, c.n);
    }
  }

  /** Recovery agrees with threshold derivation on Ed25519: every party's derivation succeeds on a path
      that both sides read, the child shares represent the recovered scalar, and the parties' public
      key is the recovered point. The dealt scalar is the clamped, unreduced one. */
  lemma EdRecoveryAgrees(c: Curve, p: int, hmac: Hmac, sha: Sha512, seed: seq<Byte>, names: seq<Name>,
                         coeffs: seq<nat>, states: seq<State>, path: string)
    returns (derived: seq<State>, chainCode: seq<Byte>)
    requires IsEdwards(c, p) && names != [] && coeffs != []
    requires Points(Keys(MakeSortedPartyIDs(names)), c.n)
    requires var (key, cc) := EdMaster(hmac, seed);
             var s := Clamped(sha, key);
             Deal(c, s, Mul(c, s, c.base), cc, Keys(MakeSortedPartyIDs(names)), coeffs) == Some(states)
    requires ParsePath(path).Some? && ParsePath(path).value != []
    ensures EachDerives(Ed25519, c, hmac, states, ParsePath(path).value, derived)
    ensures RecoverEd(c, hmac, sha, seed, path).Some?
    ensures var (scalar, pub) := RecoverEd(c, hmac, sha, seed, path).value;
            && Represents(c, Keys(MakeSortedPartyIDs(names)), |coeffs|, derived, scalar, chainCode)
            && pub == Mul(c, scalar, c.base)
  {
    hide IsGroup, IsEdwards, Mul, Points, Deal, EdMaster, Clamped, ParsePath, ParseBIP32, MakeSortedPartyIDs, EdLevels,
         Represents, EachDerives, PublicSharesMatch, PublicWalk;
    EdwardsIsGroup(c, p);
    var (key, cc) := EdMaster(hmac, seed);
    var s := Clamped(sha, key);
    var ids := Keys(MakeSortedPartyIDs(names));
    SortedCount(names);
    PathBothRead(path);
    var indices := ParsePath(path).value;
    DealtSharesRepresent(c, s, cc, ids, coeffs);
    EdLevelsFollowWalk(c, hmac, s, Mul(c, s, c.base), cc, indices);
    WalkTracksScalar(Ed25519, c, hmac, s, cc, indices);
    derived, chainCode := DeriveTogether(Ed25519, c, hmac, ids, |coeffs|, states, s, cc, indices);
  }
}
