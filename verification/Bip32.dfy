/** What the levels of a path hash and add, in the words of BIP-32 and SLIP-0010, and that the parties'
    derivation and both recoveries are exactly that. */
module Bip32 {
  import opened Bytes
  import opened Congruence
  import opened Options
  import opened Group
  import opened KeyDerivation
  import opened Recovery
  import opened PathParsers
  import opened Decimals

  /** A key on a path: the scalar, or the share of it, its public point and the chain code. */
  datatype Node = Node(scalar: int, pub: Point, chainCode: seq<Byte>)

  function NodeOf(st: State): Node {
    Node(st.xi, st.pub, st.chainCode)
  }

  /** serP(K) || ser32(i): the parity of y, the 32 bytes of x and the 4 bytes of the index. */
  predicate HashInput(d: seq<Byte>, pub: Point, index: nat) {
    |d| == 37 && d[0] == 2 + pub.y % 2 && BE(d[1..33]) == pub.x && BE(d[33..]) == index
  }

  /** The left half of the digest is added to the scalar and, times the base point, to the public point; the
      right half is the new chain code. */
  predicate Follows(kind: Kind, c: Curve, digest: Digest, from: Node, to: Node)
    requires c.n > 0
  {
    var il := BE(digest[..32]);
    && (kind == Secp256k1 ==> il < c.n)
    && to == Node((from.scalar + il) % c.n, c.add(from.pub, Mul(c, il, c.base)), digest[32..])
  }

  ghost predicate Child(kind: Kind, c: Curve, hmac: Hmac, from: Node, index: nat, to: Node)
    requires c.n > 0
  {
    exists d :: HashInput(d, from.pub, index) && Follows(kind, c, hmac(from.chainCode, d), from, to)
  }

  /** The nodes along a path. */
  ghost predicate Chain(kind: Kind, c: Curve, hmac: Hmac, nodes: seq<Node>, path: seq<nat>)
    requires c.n > 0
  {
    |nodes| == |path| + 1
    && forall i :: 0 <= i < |path| ==> Child(kind, c, hmac, nodes[i], path[i], nodes[i + 1])
  }

  predicate Indices(path: seq<nat>) {
    forall i :: 0 <= i < |path| ==> path[i] < UINT32
  }

  // ----- one level -----

  lemma FourBytes()
    ensures Pow256(4) == UINT32
  {
    assert Pow256(2) == 0x1_0000 && Pow256(3) == 0x100_0000;
  }

  /** The code hashes such an input, and there is no other. */
  lemma HashInputIff(pub: Point, index: nat, d: seq<Byte>)
    requires pub.x < Pow256(32) && index < UINT32
    ensures HashInput(d, pub, index) <==> d == Compress(pub) + BEBytes(index, 4)
  {
    hide BE, BEBytes, Pow256;
    FourBytes();
    var e := Compress(pub) + BEBytes(index, 4);
    assert e[1..33] == BEBytes(pub.x, 32) && e[33..] == BEBytes(index, 4);
    BEOfBEBytes(pub.x, 32);
    BEOfBEBytes(index, 4);
    if HashInput(d, pub, index) {
      BEBytesOfBE(d[1..33]);
      BEBytesOfBE(d[33..]);
      assert d == [d[0]] + d[1..33] + d[33..];
    }
  }

  lemma ReducedTweak(c: Curve, x: int, il: nat)
    requires IsGroup(c) && c.n > 0
    ensures (x + il % c.n) % c.n == (x + il) % c.n && Mul(c, il % c.n, c.base) == Mul(c, il, c.base)
  {
    hide Cong, IsGroup, Mul;
    MulReduced(c, il);
    CongMod(il, c.n);
    FromQuotient(x, x, 0, c.n);
    CongAdd(x, x, il % c.n, il, c.n);
    CongIffMod(x + il % c.n, x + il, c.n);
  }

  lemma ChildFollows(kind: Kind, c: Curve, hmac: Hmac, from: Node, index: nat, to: Node)
    requires c.n > 0 && from.pub.x < Pow256(32) && index < UINT32
    ensures Child(kind, c, hmac, from, index, to)
       <==> Follows(kind, c, ChildMac(hmac, from.pub, from.chainCode, index), from, to)
  {
    hide Follows, HashInput, Compress, BEBytes, Pow256;
    var d := Compress(from.pub) + BEBytes(index, 4);
    forall d' ensures HashInput(d', from.pub, index) <==> d' == d {
      HashInputIff(from.pub, index, d');
    }
  }

  lemma LevelIsChild(kind: Kind, c: Curve, hmac: Hmac, st: State, index: nat, to: Node)
    requires IsGroup(c) && c.n > 0 && c.member(st.pub) && index < UINT32
    ensures Child(kind, c, hmac, NodeOf(st), index, to) <==>
              Level(kind, c, hmac, st, index).Some? && NodeOf(Level(kind, c, hmac, st, index).value) == to
  {
    hide IsGroup, Mul, BE, ChildMac, Child, Shift, Pow256;
    MemberFits(c, st.pub);
    ChildFollows(kind, c, hmac, NodeOf(st), index, to);
    ReducedTweak(c, st.xi, BE(ChildMac(hmac, st.pub, st.chainCode, index)[..32]));
  }

  lemma LevelMember(kind: Kind, c: Curve, hmac: Hmac, st: State, index: nat)
    requires IsGroup(c) && c.n > 0 && c.member(st.pub) && Level(kind, c, hmac, st, index).Some?
    ensures c.member(Level(kind, c, hmac, st, index).value.pub)
  {
    StepMember(c, st.pub, Tweak(kind, ChildMac(hmac, st.pub, st.chainCode, index), c.n).value);
  }

  // ----- the parties' derivation -----

  lemma ChainTail(kind: Kind, c: Curve, hmac: Hmac, nodes: seq<Node>, path: seq<nat>)
    requires c.n > 0 && path != [] && |nodes| == |path| + 1
    ensures Chain(kind, c, hmac, nodes, path) <==>
              Child(kind, c, hmac, nodes[0], path[0], nodes[1]) && Chain(kind, c, hmac, nodes[1..], path[1..])
  {
    hide Child;
    if Child(kind, c, hmac, nodes[0], path[0], nodes[1]) && Chain(kind, c, hmac, nodes[1..], path[1..]) {
      forall i | 0 <= i < |path| ensures Child(kind, c, hmac, nodes[i], path[i], nodes[i + 1]) {
        if i > 0 {
          assert nodes[1..][i - 1] == nodes[i] && nodes[1..][i] == nodes[i + 1] && path[1..][i - 1] == path[i];
        }
      }
    }
  }

  /** Levels that succeed make a chain. */
  lemma {:induction false} LevelsMakeChain(kind: Kind, c: Curve, hmac: Hmac, st: State, path: seq<nat>)
    returns (nodes: seq<Node>)
    requires IsGroup(c) && c.n > 0 && c.member(st.pub) && Indices(path)
    requires Levels(kind, c, hmac, st, path).Some?
    ensures Chain(kind, c, hmac, nodes, path)
    ensures nodes[0] == NodeOf(st) && nodes[|path|] == NodeOf(Levels(kind, c, hmac, st, path).value)
    decreases path
  {
    hide IsGroup, Child, Level;
    if path == [] {
      nodes := [NodeOf(st)];
    } else {
      var next := Level(kind, c, hmac, st, path[0]).value;
      LevelIsChild(kind, c, hmac, st, path[0], NodeOf(next));
      LevelMember(kind, c, hmac, st, path[0]);
      var rest := LevelsMakeChain(kind, c, hmac, next, path[1..]);
      nodes := [NodeOf(st)] + rest;
      assert nodes[1..] == rest;
      ChainTail(kind, c, hmac, nodes, path);
    }
  }

  /** A chain is followed by the levels, so there is at most one. */
  lemma {:induction false} ChainMakesLevels(kind: Kind, c: Curve, hmac: Hmac, st: State, path: seq<nat>,
                                            nodes: seq<Node>)
    requires IsGroup(c) && c.n > 0 && c.member(st.pub) && Indices(path)
    requires Chain(kind, c, hmac, nodes, path) && nodes[0] == NodeOf(st)
    ensures Levels(kind, c, hmac, st, path).Some?
    ensures nodes[|path|] == NodeOf(Levels(kind, c, hmac, st, path).value)
    decreases path
  {
    hide IsGroup, Child, Level;
    if path != [] {
      ChainTail(kind, c, hmac, nodes, path);
      LevelIsChild(kind, c, hmac, st, path[0], nodes[1]);
      LevelMember(kind, c, hmac, st, path[0]);
      ChainMakesLevels(kind, c, hmac, Level(kind, c, hmac, st, path[0]).value, path[1..], nodes[1..]);
    }
  }

  /** The nodes lead from one node to another. */
  ghost predicate Leads(kind: Kind, c: Curve, hmac: Hmac, nodes: seq<Node>, path: seq<nat>, from: Node, to: Node)
    requires c.n > 0
  {
    Chain(kind, c, hmac, nodes, path) && nodes[0] == from && nodes[|path|] == to
  }

  /** A party's derivation ends at a node exactly when BIP-32 leads there and its public point is on the curve. */
  lemma DeriveIsBip32(kind: Kind, c: Curve, hmac: Hmac, share: State, path: seq<nat>, to: Node)
    requires IsGroup(c) && c.n > 0 && c.member(share.pub) && Indices(path)
    ensures (Derive(kind, c, hmac, share, path).Some? && NodeOf(Derive(kind, c, hmac, share, path).value) == to)
       <==> c.onCurve(to.pub) && exists nodes :: Leads(kind, c, hmac, nodes, path, NodeOf(share), to)
  {
    hide IsGroup, Levels, Chain, Copy;
    var st := share.(bigX := Copy(c, share.bigX));
    if Levels(kind, c, hmac, st, path).Some? && NodeOf(Levels(kind, c, hmac, st, path).value) == to {
      var nodes := LevelsMakeChain(kind, c, hmac, st, path);
      assert Leads(kind, c, hmac, nodes, path, NodeOf(share), to);
    }
    if nodes :| Leads(kind, c, hmac, nodes, path, NodeOf(share), to) {
      ChainMakesLevels(kind, c, hmac, st, path, nodes);
    }
  }

  /** Different data have different right halves. */
  ghost predicate TellsApart(hmac: Hmac) {
    forall key, d, d' :: hmac(key, d)[32..] == hmac(key, d')[32..] ==> d == d'
  }

  /** Under such an HMAC siblings have different chain codes: the index is hashed. */
  lemma SiblingsDiffer(kind: Kind, c: Curve, hmac: Hmac, share: State, i: nat, j: nat)
    requires IsGroup(c) && c.n > 0 && c.member(share.pub) && i < UINT32 && j < UINT32 && i != j && TellsApart(hmac)
    requires Derive(kind, c, hmac, share, [i]).Some? && Derive(kind, c, hmac, share, [j]).Some?
    ensures Derive(kind, c, hmac, share, [i]).value.chainCode != Derive(kind, c, hmac, share, [j]).value.chainCode
  {
    hide IsGroup, Derive, BE;
    var d := OneLevel(kind, c, hmac, share, i);
    var e := OneLevel(kind, c, hmac, share, j);
    assert d[33..] != e[33..];
  }

  lemma OneLevel(kind: Kind, c: Curve, hmac: Hmac, share: State, i: nat) returns (d: seq<Byte>)
    requires IsGroup(c) && c.n > 0 && c.member(share.pub) && i < UINT32
    requires Derive(kind, c, hmac, share, [i]).Some?
    ensures HashInput(d, share.pub, i)
    ensures Derive(kind, c, hmac, share, [i]).value.chainCode == hmac(share.chainCode, d)[32..]
  {
    hide IsGroup, Derive, HashInput, Mul, BE;
    var to := NodeOf(Derive(kind, c, hmac, share, [i]).value);
    DeriveIsBip32(kind, c, hmac, share, [i], to);
    var nodes :| Leads(kind, c, hmac, nodes, [i], NodeOf(share), to);
    assert Child(kind, c, hmac, nodes[0], [i][0], nodes[1]);
    d :| HashInput(d, share.pub, i) && Follows(kind, c, hmac(share.chainCode, d), NodeOf(share), to);
  }
  // ----- the recoveries -----

  /** No level of a secp256k1 recovery may reach 0. */
  predicate NonzeroAfterFirst(nodes: seq<Node>) {
    forall i :: 1 <= i < |nodes| ==> nodes[i].scalar != 0
  }

  function KeyNode(c: Curve, key: nat, chainCode: seq<Byte>): Node {
    Node(key, Mul(c, key, c.base), chainCode)
  }

  lemma EcdsaLevelIsChild(c: Curve, hmac: Hmac, key: nat, chainCode: seq<Byte>, index: nat, to: Node)
    requires IsGroup(c) && c.n > 0 && index < UINT32
    ensures var digest := ChildMac(hmac, Mul(c, key, c.base), chainCode, index);
            var il := BE(digest[..32]);
            (Child(Secp256k1, c, hmac, KeyNode(c, key, chainCode), index, to) && to.scalar != 0) <==>
              il < c.n && (il + key) % c.n != 0 && to == KeyNode(c, (il + key) % c.n, digest[32..])
  {
    hide IsGroup, Mul, BE, ChildMac, Child, Pow256;
    var pub := Mul(c, key, c.base);
    Basics(c);
    MulMember(c, key, c.base);
    MemberFits(c, pub);
    ChildFollows(Secp256k1, c, hmac, KeyNode(c, key, chainCode), index, to);
    MulTweak(c, key, BE(ChildMac(hmac, pub, chainCode, index)[..32]));
  }

  lemma {:induction false} EcdsaMakesChain(c: Curve, hmac: Hmac, key: nat, chainCode: seq<Byte>, path: seq<nat>)
    returns (nodes: seq<Node>)
    requires IsGroup(c) && c.n > 0 && Indices(path) && EcdsaLevels(c, hmac, key, chainCode, path).Some?
    ensures |nodes| == |path| + 1 && Chain(Secp256k1, c, hmac, nodes, path) && NonzeroAfterFirst(nodes)
    ensures nodes[0] == KeyNode(c, key, chainCode)
    ensures nodes[|path|].scalar == EcdsaLevels(c, hmac, key, chainCode, path).value
    decreases path
  {
    hide IsGroup, Mul, BE, ChildMac, Child;
    if path == [] {
      nodes := [KeyNode(c, key, chainCode)];
    } else {
      var digest := ChildMac(hmac, Mul(c, key, c.base), chainCode, path[0]);
      var next := (BE(digest[..32]) + key) % c.n;
      EcdsaLevelIsChild(c, hmac, key, chainCode, path[0], KeyNode(c, next, digest[32..]));
      var rest := EcdsaMakesChain(c, hmac, next, digest[32..], path[1..]);
      nodes := [KeyNode(c, key, chainCode)] + rest;
      assert nodes[1..] == rest;
      ChainTail(Secp256k1, c, hmac, nodes, path);
    }
  }

  lemma {:induction false} ChainMakesEcdsa(c: Curve, hmac: Hmac, key: nat, chainCode: seq<Byte>, path: seq<nat>,
                                           nodes: seq<Node>)
    requires IsGroup(c) && c.n > 0 && Indices(path)
    requires Chain(Secp256k1, c, hmac, nodes, path) && NonzeroAfterFirst(nodes)
    requires nodes[0] == KeyNode(c, key, chainCode)
    ensures nodes[|path|].scalar >= 0 && EcdsaLevels(c, hmac, key, chainCode, path) == Some(nodes[|path|].scalar)
    decreases path
  {
    hide IsGroup, Mul, BE, ChildMac, Child;
    if path != [] {
      ChainTail(Secp256k1, c, hmac, nodes, path);
      EcdsaLevelIsChild(c, hmac, key, chainCode, path[0], nodes[1]);
      var digest := ChildMac(hmac, Mul(c, key, c.base), chainCode, path[0]);
      ChainMakesEcdsa(c, hmac, (BE(digest[..32]) + key) % c.n, digest[32..], path[1..], nodes[1..]);
    }
  }

  lemma {:induction false} IndicesFit(parts: seq<string>)
    requires Bip32Parts(parts).Some?
    ensures Indices(Bip32Parts(parts).value)
  {
    hide Digits, Offset, Wrapped, AllDigits;
    if parts != [] {
      IndicesFit(parts[1..]);
    }
  }

  lemma RecoveredIndices(path: string)
    requires ParseBIP32(path).Some?
    ensures Indices(ParseBIP32(path).value)
  {
    IndicesFit(Split(TrimM(path)));
  }

  /** The installer recovers a key exactly when BIP-32, from the master that the seed's HMAC gives, leads to it
      through nonzero keys. */
  lemma RecoverECDSAIsBip32(c: Curve, hmac: Hmac, seed: seq<Byte>, path: string, key: nat)
    requires IsGroup(c) && c.n > 0
    ensures RecoverECDSA(c, hmac, seed, path) == Some(key) <==>
              var digest := hmac(Ascii("Bitcoin seed"), seed);
              && ParseBIP32(path).Some? && 0 < BE(digest[..32]) < c.n
              && exists nodes, to :: Leads(Secp256k1, c, hmac, nodes, ParseBIP32(path).value,
                                           KeyNode(c, BE(digest[..32]), digest[32..]), to)
                                     && NonzeroAfterFirst(nodes) && to.scalar == key
  {
    hide IsGroup, Mul, BE, Chain, ParseBIP32, EcdsaLevels, NonzeroAfterFirst;
    var digest := hmac(Ascii("Bitcoin seed"), seed);
    if ParseBIP32(path).Some? && 0 < BE(digest[..32]) < c.n {
      var indices, master := ParseBIP32(path).value, BE(digest[..32]);
      RecoveredIndices(path);
      if EcdsaLevels(c, hmac, master, digest[32..], indices) == Some(key) {
        var nodes := EcdsaMakesChain(c, hmac, master, digest[32..], indices);
        assert Leads(Secp256k1, c, hmac, nodes, indices, KeyNode(c, master, digest[32..]), nodes[|indices|]);
      }
      if nodes, to :| Leads(Secp256k1, c, hmac, nodes, indices, KeyNode(c, master, digest[32..]), to)
                      && NonzeroAfterFirst(nodes) && to.scalar == key {
        ChainMakesEcdsa(c, hmac, master, digest[32..], indices, nodes);
      }
    }
  }

  /** 0x00 || k || ser32(i), of SLIP-0010. */
  predicate SlipInput(d: seq<Byte>, key: seq<Byte>, index: nat) {
    |d| == 37 && d[0] == 0 && d[1..33] == key && BE(d[33..]) == index
  }

  ghost predicate SlipChild(hmac: Hmac, from: (seq<Byte>, seq<Byte>), index: nat, to: (seq<Byte>, seq<Byte>)) {
    exists d :: SlipInput(d, from.0, index) && to == (hmac(from.1, d)[..32], hmac(from.1, d)[32..])
  }

  /** Keys and chain codes along a hardened path. */
  ghost predicate SlipChain(hmac: Hmac, keys: seq<(seq<Byte>, seq<Byte>)>, path: seq<nat>) {
    |keys| == |path| + 1 && forall i :: 0 <= i < |path| ==> SlipChild(hmac, keys[i], path[i], keys[i + 1])
  }

  lemma SlipStep(hmac: Hmac, key: seq<Byte>, chainCode: seq<Byte>, index: nat)
    requires |key| == 32 && index < UINT32
    ensures var digest := hmac(chainCode, [0] + key + BEBytes(index, 4));
            SlipChild(hmac, (key, chainCode), index, (digest[..32], digest[32..]))
  {
    hide BE, BEBytes, Pow256;
    var d := [0] + key + BEBytes(index, 4);
    FourBytes();
    BEOfBEBytes(index, 4);
    assert d[1..33] == key && d[33..] == BEBytes(index, 4);
    assert SlipInput(d, key, index);
  }

  lemma {:induction false} SlipLevelsMakeChain(hmac: Hmac, key: seq<Byte>, chainCode: seq<Byte>, path: seq<nat>)
    returns (keys: seq<(seq<Byte>, seq<Byte>)>)
    requires |key| == 32 && Indices(path)
    ensures |keys| == |path| + 1 && SlipChain(hmac, keys, path)
    ensures keys[0] == (key, chainCode) && keys[|path|] == SlipLevels(hmac, key, chainCode, path)
    decreases path
  {
    hide SlipChild;
    if path == [] {
      keys := [(key, chainCode)];
    } else {
      var digest := hmac(chainCode, [0] + key + BEBytes(path[0], 4));
      SlipStep(hmac, key, chainCode, path[0]);
      var rest := SlipLevelsMakeChain(hmac, digest[..32], digest[32..], path[1..]);
      keys := [(key, chainCode)] + rest;
      forall i | 0 <= i < |path| ensures SlipChild(hmac, keys[i], path[i], keys[i + 1]) {
        if i > 0 {
          assert SlipChild(hmac, rest[i - 1], path[1..][i - 1], rest[i]);
        }
      }
    }
  }

  lemma SlipPathReads(path: string)
    requires path == "m/44'/501'/0'/0'"
    ensures ParseBIP32(path) == Some(SLIP_PATH)
  {
    SlipParts();
    hide RenderParts, ParseBIP32, ParsePath, Numeral;
    var parts := ["44'", "501'", "0'", "0'"];
    assert parts[1..] == ["501'", "0'", "0'"] && parts[1..][1..] == ["0'", "0'"] && parts[1..][1..][1..] == ["0'"];
    assert Join(parts[1..][1..]) == "0'/0'";
    assert Join(parts[1..]) == "501'/0'/0'";
    assert Join(parts) == "44'/501'/0'/0'";
    assert Render(SLIP_PATH, '\'') == path;
    RenderedPathParses(SLIP_PATH, '\'');
  }

  lemma SlipParts()
    ensures RenderParts(SLIP_PATH, '\'') == ["44'", "501'", "0'", "0'"]
  {
    assert Numeral(4) == "4" && Numeral(44) == "44";
    assert Numeral(5) == "5" && Numeral(50) == "50" && Numeral(501) == "501";
    assert Numeral(0) == "0";
    assert RenderIndex(SLIP_PATH[0], '\'') == "44'" && RenderIndex(SLIP_PATH[1], '\'') == "501'";
    assert RenderIndex(SLIP_PATH[2], '\'') == RenderIndex(SLIP_PATH[3], '\'') == "0'";
  }

  /** The Ed25519 master is that of SLIP-0010 at m/44'/501'/0'/0'. */
  lemma MasterIsSlip10(hmac: Hmac, seed: seq<Byte>, path: string) returns (keys: seq<(seq<Byte>, seq<Byte>)>)
    requires path == "m/44'/501'/0'/0'"
    ensures ParseBIP32(path).Some? && |keys| == |ParseBIP32(path).value| + 1
    ensures SlipChain(hmac, keys, ParseBIP32(path).value)
    ensures keys[0] == (hmac(Ascii("ed25519 seed"), seed)[..32], hmac(Ascii("ed25519 seed"), seed)[32..])
    ensures keys[|keys| - 1] == EdMaster(hmac, seed)
  {
    hide SlipChain, SlipLevels, ParseBIP32, Ascii;
    SlipPathReads(path);
    var digest := hmac(Ascii("ed25519 seed"), seed);
    keys := SlipLevelsMakeChain(hmac, digest[..32], digest[32..], SLIP_PATH);
  }

  lemma EdLevelIsChild(c: Curve, hmac: Hmac, scalar: nat, pub: Point, chainCode: seq<Byte>, index: nat, to: Node)
    requires IsGroup(c) && c.n > 0 && c.member(pub) && index < UINT32
    ensures var digest := ChildMac(hmac, pub, chainCode, index);
            var il := BE(digest[..32]) % c.n;
            Child(Ed25519, c, hmac, Node(scalar, pub, chainCode), index, to) <==>
              to == Node((scalar + il) % c.n, c.add(pub, Mul(c, il, c.base)), digest[32..])
  {
    hide IsGroup, Mul, BE, ChildMac, Child, Pow256;
    MemberFits(c, pub);
    ChildFollows(Ed25519, c, hmac, Node(scalar, pub, chainCode), index, to);
    ReducedTweak(c, scalar, BE(ChildMac(hmac, pub, chainCode, index)[..32]));
  }

  lemma {:induction false} EdMakesChain(c: Curve, hmac: Hmac, scalar: nat, pub: Point, chainCode: seq<Byte>,
                                        path: seq<nat>)
    returns (nodes: seq<Node>)
    requires IsGroup(c) && c.n > 0 && c.member(pub) && Indices(path)
    ensures |nodes| == |path| + 1 && Chain(Ed25519, c, hmac, nodes, path) && nodes[0] == Node(scalar, pub, chainCode)
    ensures EdLevels(c, hmac, scalar, pub, chainCode, path) == (nodes[|path|].scalar, nodes[|path|].pub)
    decreases path
  {
    hide IsGroup, Mul, BE, ChildMac, Child;
    if path == [] {
      nodes := [Node(scalar, pub, chainCode)];
    } else {
      var digest := ChildMac(hmac, pub, chainCode, path[0]);
      var il := BE(digest[..32]) % c.n;
      var next := Node((scalar + il) % c.n, c.add(pub, Mul(c, il, c.base)), digest[32..]);
      EdLevelIsChild(c, hmac, scalar, pub, chainCode, path[0], next);
      StepMember(c, pub, il);
      var rest := EdMakesChain(c, hmac, next.scalar, next.pub, next.chainCode, path[1..]);
      nodes := [Node(scalar, pub, chainCode)] + rest;
      assert nodes[1..] == rest;
      ChainTail(Ed25519, c, hmac, nodes, path);
    }
  }

  lemma {:induction false} ChainMakesEd(c: Curve, hmac: Hmac, scalar: nat, pub: Point, chainCode: seq<Byte>,
                                        path: seq<nat>, nodes: seq<Node>)
    requires IsGroup(c) && c.n > 0 && c.member(pub) && Indices(path)
    requires Chain(Ed25519, c, hmac, nodes, path) && nodes[0] == Node(scalar, pub, chainCode)
    ensures EdLevels(c, hmac, scalar, pub, chainCode, path) == (nodes[|path|].scalar, nodes[|path|].pub)
    decreases path
  {
    hide IsGroup, Mul, BE, ChildMac, Child;
    if path != [] {
      ChainTail(Ed25519, c, hmac, nodes, path);
      EdLevelIsChild(c, hmac, scalar, pub, chainCode, path[0], nodes[1]);
      StepMember(c, pub, BE(ChildMac(hmac, pub, chainCode, path[0])[..32]) % c.n);
      ChainMakesEd(c, hmac, nodes[1].scalar, nodes[1].pub, nodes[1].chainCode, path[1..], nodes[1..]);
    }
  }

  /** The installer recovers an Ed25519 key exactly when BIP-32, from the clamped scalar of the master, leads
      to it. */
  lemma RecoverEdIsBip32(c: Curve, hmac: Hmac, sha: Sha512, seed: seq<Byte>, path: string, scalar: nat, pub: Point)
    requires IsGroup(c) && c.n > 0
    ensures RecoverEd(c, hmac, sha, seed, path) == Some((scalar, pub)) <==>
              var (key, chainCode) := EdMaster(hmac, seed);
              && ParseBIP32(path).Some?
              && exists nodes, to :: Leads(Ed25519, c, hmac, nodes, ParseBIP32(path).value,
                                           KeyNode(c, Clamped(sha, key), chainCode), to)
                                     && to.scalar == scalar && to.pub == pub
  {
    hide IsGroup, Mul, Chain, ParseBIP32, EdLevels, EdMaster, Clamped;
    if ParseBIP32(path).Some? {
      var (key, chainCode) := EdMaster(hmac, seed);
      var indices, s := ParseBIP32(path).value, Clamped(sha, key);
      RecoveredIndices(path);
      Basics(c);
      MulMember(c, s, c.base);
      var nodes := EdMakesChain(c, hmac, s, Mul(c, s, c.base), chainCode, indices);
      assert Leads(Ed25519, c, hmac, nodes, indices, KeyNode(c, s, chainCode), nodes[|indices|]);
      if nodes', to :| Leads(Ed25519, c, hmac, nodes', indices, KeyNode(c, s, chainCode), to)
                       && to.scalar == scalar && to.pub == pub {
        ChainMakesEd(c, hmac, s, Mul(c, s, c.base), chainCode, indices, nodes');
      }
    }
  }
}
