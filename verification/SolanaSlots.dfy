/** Signature slots of a Solana transaction (internal/vm/solana/solana.go): blockhash injection, the bytes
    handed to the threshold signer, and the assembly of all signatures. */
module SolanaSlots {
  import opened Bytes
  import opened Options

  type Key = seq<Byte>

  datatype Message = Message(numRequired: Byte, keys: seq<Key>, blockhash: Key, body: seq<Byte>)

  datatype Transaction = Transaction(sigs: seq<seq<Byte>>, msg: Message)

  /** The message codec and Ed25519, as functions. */
  datatype Lib = Lib(
    decode: seq<Byte> -> Option<Transaction>,
    encode: Transaction -> Option<seq<Byte>>,
    encodeMessage: Message -> Option<seq<Byte>>,
    public: seq<Byte> -> Key,
    sign: (seq<Byte>, seq<Byte>) -> seq<Byte>,
    verify: (Key, seq<Byte>, seq<Byte>) -> bool)

  const SIGNATURE: nat := 64

  /** What is assumed of the libraries: encoding reads back, and signatures verify. */
  ghost predicate Sound(lib: Lib) {
    && (forall tx :: lib.encode(tx).Some? ==> lib.decode(lib.encode(tx).value) == Some(tx))
    && (forall priv, m :: lib.verify(lib.public(priv), m, lib.sign(priv, m)))
  }

  function ExtractSignableBytes(lib: Lib, raw: seq<Byte>): Option<seq<Byte>> {
    match lib.decode(raw) case None => None case Some(tx) => lib.encodeMessage(tx.msg)
  }

  function InjectBlockhash(lib: Lib, raw: seq<Byte>, blockhash: Key): Option<seq<Byte>> {
    match lib.decode(raw)
    case None => None
    case Some(tx) => lib.encode(tx.(msg := tx.msg.(blockhash := blockhash)))
  }

  function NumSigs(msg: Message): (n: nat)
    ensures n >= 1
  {
    if msg.numRequired < 1 then 1 else msg.numRequired
  }

  /** The slot an extra key's signature goes to. */
  predicate SlotOf(msg: Message, pk: Key, i: nat) {
    && 0 < i < NumSigs(msg) && i < |msg.keys| && msg.keys[i] == pk
    && forall j :: 0 < j < i ==> msg.keys[j] != pk
  }

  /** The inner loop: the first slot past the payer's whose account key is pk. */
  method FindSlot(msg: Message, pk: Key) returns (slot: Option<nat>)
    ensures slot.Some? ==> SlotOf(msg, pk, slot.value)
    ensures slot.Some? ==> 0 < slot.value < msg.numRequired && slot.value < |msg.keys| && msg.keys[slot.value] == pk
    ensures slot.Some? ==> pk !in msg.keys[1..slot.value]
    ensures slot == None ==> forall i :: 0 < i < NumSigs(msg) && i < |msg.keys| ==> msg.keys[i] != pk
  {
    for i := 0 to |msg.keys|
      invariant forall j :: 0 < j < i && j < NumSigs(msg) ==> msg.keys[j] != pk
    {
      if msg.keys[i] == pk && i > 0 && i < NumSigs(msg) {
        return Some(i);
      }
    }
    return None;
  }

  /** Every slot holds the payer's signature, a signature by an extra key for that slot, or still zeros;
      a slot is filled once an extra key for it has been tried. */
  ghost predicate Filled(lib: Lib, msg: Message, sig: seq<Byte>, extra: seq<seq<Byte>>, bytes: seq<Byte>,
                         sigs: seq<seq<Byte>>)
  {
    && |sigs| == NumSigs(msg) && sigs[0] == sig
    && forall i :: 0 < i < |sigs| ==>
         if exists k :: 0 <= k < |extra| && SlotOf(msg, lib.public(extra[k]), i) then
           exists k :: 0 <= k < |extra| && SlotOf(msg, lib.public(extra[k]), i) && sigs[i] == lib.sign(extra[k], bytes)
         else sigs[i] == Zeros(SIGNATURE)
  }

  lemma FilledMore(lib: Lib, msg: Message, sig: seq<Byte>, extra: seq<seq<Byte>>, bytes: seq<Byte>,
                   sigs: seq<seq<Byte>>, priv: seq<Byte>, slot: Option<nat>)
    requires Filled(lib, msg, sig, extra, bytes, sigs)
    requires slot.Some? ==> SlotOf(msg, lib.public(priv), slot.value)
    requires slot == None ==> forall i :: !SlotOf(msg, lib.public(priv), i)
    ensures var next := if slot.Some? then sigs[slot.value := lib.sign(priv, bytes)] else sigs;
            Filled(lib, msg, sig, extra + [priv], bytes, next)
  {
    var next := if slot.Some? then sigs[slot.value := lib.sign(priv, bytes)] else sigs;
    var more := extra + [priv];
    forall i | 0 < i < |next| ensures
      if exists k :: 0 <= k < |more| && SlotOf(msg, lib.public(more[k]), i) then
        exists k :: 0 <= k < |more| && SlotOf(msg, lib.public(more[k]), i) && next[i] == lib.sign(more[k], bytes)
      else next[i] == Zeros(SIGNATURE)
    {
      if slot == Some(i) {
        assert more[|extra|] == priv;
      } else if k :| 0 <= k < |extra| && SlotOf(msg, lib.public(extra[k]), i) && sigs[i] == lib.sign(extra[k], bytes) {
        assert more[k] == extra[k];
      } else {
        hide SlotOf;
        assert forall k :: 0 <= k < |extra| ==> more[k] == extra[k];
      }
    }
  }

  /** The outer loop: each extra key signs the message into its slot, if it has one. */
  method SignExtras(lib: Lib, msg: Message, sig: seq<Byte>, extra: seq<seq<Byte>>, bytes: seq<Byte>,
                    sigs: array<seq<Byte>>)
    requires Filled(lib, msg, sig, [], bytes, sigs[..])
    modifies sigs
    ensures Filled(lib, msg, sig, extra, bytes, sigs[..])
  {
    hide Filled, SlotOf;
    SlotsFit(lib, msg, sig, [], bytes, sigs[..]);
    assert extra[..0] == [];
    for k := 0 to |extra|
      invariant Filled(lib, msg, sig, extra[..k], bytes, sigs[..])
    {
      var slot := FindSlot(msg, lib.public(extra[k]));
      SlotInRange(msg, lib.public(extra[k]), slot);
      FilledMore(lib, msg, sig, extra[..k], bytes, sigs[..], extra[k], slot);
      assert extra[..k + 1] == extra[..k] + [extra[k]];
      if slot.Some? {
        ghost var before := sigs[..];
        sigs[slot.value] := lib.sign(extra[k], bytes);
        assert sigs[..] == before[slot.value := lib.sign(extra[k], bytes)];
      }
    }
    assert extra[..|extra|] == extra;
  }

  lemma SlotsFit(lib: Lib, msg: Message, sig: seq<Byte>, extra: seq<seq<Byte>>, bytes: seq<Byte>, sigs: seq<seq<Byte>>)
    requires Filled(lib, msg, sig, extra, bytes, sigs)
    ensures |sigs| == NumSigs(msg)
  {
  }

  lemma SlotInRange(msg: Message, pk: Key, slot: Option<nat>)
    requires slot.Some? ==> SlotOf(msg, pk, slot.value)
    requires slot == None ==> forall i :: 0 < i < NumSigs(msg) && i < |msg.keys| ==> msg.keys[i] != pk
    ensures slot.Some? ==> slot.value < NumSigs(msg)
    ensures slot == None ==> forall i :: !SlotOf(msg, pk, i)
  {
  }

  /** AssembleSignedTxWithExtra, up to the final encoding: None is an error return. */
  method PlaceSignatures(lib: Lib, raw: seq<Byte>, sig: seq<Byte>, extra: seq<seq<Byte>>)
    returns (signed: Option<Transaction>)
    ensures signed == None <==>
              lib.decode(raw) == None || |sig| != SIGNATURE
              || (extra != [] && lib.encodeMessage(lib.decode(raw).value.msg) == None)
    ensures signed.Some? ==>
              && signed.value.msg == lib.decode(raw).value.msg
              && (extra == [] ==> Filled(lib, signed.value.msg, sig, [], [], signed.value.sigs))
              && (extra != [] ==> Filled(lib, signed.value.msg, sig, extra,
                                         lib.encodeMessage(signed.value.msg).value, signed.value.sigs))
  {
    var tx := lib.decode(raw);
    if tx == None || |sig| != SIGNATURE {
      return None;
    }
    var msg := tx.value.msg;
    var sigs := new seq<Byte>[NumSigs(msg)](i => Zeros(SIGNATURE));
    sigs[0] := sig;
    if |extra| > 0 {
      var bytes := lib.encodeMessage(msg);
      if bytes == None {
        return None;
      }
      SignExtras(lib, msg, sig, extra, bytes.value, sigs);
    }
    return Some(Transaction(sigs[..], msg));
  }

  method AssembleSignedTxWithExtra(lib: Lib, raw: seq<Byte>, sig: seq<Byte>, extra: seq<seq<Byte>>)
    returns (signed: Option<seq<Byte>>)
    requires Sound(lib)
    ensures signed == None ==> CannotAssemble(lib, raw, sig)
    ensures signed.Some? && Covers(lib, raw, extra) && ExtractSignableBytes(lib, raw).Some? ==>
              AllSlotsVerify(lib, raw, sig, signed.value)
  {
    var tx := PlaceSignatures(lib, raw, sig, extra);
    if tx == None {
      return None;
    }
    signed := lib.encode(tx.value);
    if signed.Some? && Covers(lib, raw, extra) && ExtractSignableBytes(lib, raw).Some? {
      SlotsVerify(lib, raw, sig, extra, tx.value);
    }
  }

  /** The error returns: an unreadable transaction, a signature of the wrong length, or an encoder that refuses. */
  ghost predicate CannotAssemble(lib: Lib, raw: seq<Byte>, sig: seq<Byte>) {
    lib.decode(raw) == None || |sig| != SIGNATURE || ExtractSignableBytes(lib, raw) == None
    || exists tx: Transaction :: tx.msg == lib.decode(raw).value.msg && lib.encode(tx) == None
  }

  /** Account keys are distinct, and somebody holds a key for every required signer but the payer. */
  ghost predicate Covers(lib: Lib, raw: seq<Byte>, extra: seq<seq<Byte>>) {
    && lib.decode(raw).Some?
    && var msg := lib.decode(raw).value.msg;
       && (forall i, j :: 0 <= i < j < |msg.keys| ==> msg.keys[i] != msg.keys[j])
       && 1 <= |msg.keys| && NumSigs(msg) <= |msg.keys|
       && forall i :: 1 <= i < NumSigs(msg) ==> Held(lib, extra, msg.keys[i])
  }

  predicate Held(lib: Lib, extra: seq<seq<Byte>>, key: Key) {
    exists k :: 0 <= k < |extra| && lib.public(extra[k]) == key
  }

  /** The signed transaction carries the same message, and if the threshold signature is the payer's, every
      slot is signed by the holder of its account key over the bytes the threshold signer was given. */
  ghost predicate AllSlotsVerify(lib: Lib, raw: seq<Byte>, sig: seq<Byte>, signed: seq<Byte>) {
    && lib.decode(raw).Some? && lib.decode(signed).Some? && ExtractSignableBytes(lib, raw).Some?
    && var msg, tx, bytes := lib.decode(raw).value.msg, lib.decode(signed).value, ExtractSignableBytes(lib, raw).value;
       && tx.msg == msg && |tx.sigs| <= |msg.keys|
       && |tx.sigs| == (if 1 <= msg.numRequired then msg.numRequired else 1)
       && (lib.verify(msg.keys[0], bytes, sig) ==>
             forall i :: 0 <= i < |tx.sigs| ==> lib.verify(msg.keys[i], bytes, tx.sigs[i]))
  }

  lemma SlotsVerify(lib: Lib, raw: seq<Byte>, sig: seq<Byte>, extra: seq<seq<Byte>>, tx: Transaction)
    requires Sound(lib) && Covers(lib, raw, extra) && ExtractSignableBytes(lib, raw).Some?
    requires tx.msg == lib.decode(raw).value.msg && lib.encode(tx).Some?
    requires Filled(lib, tx.msg, sig, extra, if extra == [] then [] else ExtractSignableBytes(lib, raw).value, tx.sigs)
    ensures AllSlotsVerify(lib, raw, sig, lib.encode(tx).value)
  {
    var msg, bytes := tx.msg, ExtractSignableBytes(lib, raw).value;
    forall i | 0 < i < |tx.sigs| ensures lib.verify(msg.keys[i], bytes, tx.sigs[i]) {
      assert Held(lib, extra, msg.keys[i]);
      var k :| 0 <= k < |extra| && lib.public(extra[k]) == msg.keys[i];
      assert SlotOf(msg, lib.public(extra[k]), i);
      var h :| 0 <= h < |extra| && SlotOf(msg, lib.public(extra[h]), i) && tx.sigs[i] == lib.sign(extra[h], bytes);
    }
  }

  /** Injecting a blockhash changes nothing but the blockhash. */
  lemma InjectionKeepsAccounts(lib: Lib, raw: seq<Byte>, blockhash: Key)
    requires Sound(lib) && InjectBlockhash(lib, raw, blockhash).Some?
    ensures var updated := InjectBlockhash(lib, raw, blockhash).value;
            && lib.decode(updated)
                 == Some(lib.decode(raw).value.(msg := lib.decode(raw).value.msg.(blockhash := blockhash)))
            && forall extra :: Covers(lib, raw, extra) ==> Covers(lib, updated, extra)
  {
    var tx := lib.decode(raw).value;
    var next := tx.(msg := tx.msg.(blockhash := blockhash));
    var updated := lib.encode(next).value;
    assert lib.decode(updated) == Some(next);
    forall extra | Covers(lib, raw, extra) ensures Covers(lib, updated, extra) {
      hide Held;
      assert next.msg.keys == tx.msg.keys && NumSigs(next.msg) == NumSigs(tx.msg);
    }
  }

  /** The whole of Party A's path after approval: inject a fresh blockhash, have the bytes threshold-signed,
      assemble. If the original transaction was covered, every slot of the result verifies over exactly the
      bytes that were threshold-signed, in whatever order the extra keys come. */
  method SignWithFreshBlockhash(lib: Lib, raw: seq<Byte>, blockhash: Key, extra: seq<seq<Byte>>,
                                threshold: seq<Byte> -> seq<Byte>)
    returns (signed: Option<seq<Byte>>)
    requires Sound(lib)
    ensures signed == None && InjectBlockhash(lib, raw, blockhash).Some? ==>
              var updated := InjectBlockhash(lib, raw, blockhash).value;
              match ExtractSignableBytes(lib, updated)
              case None => true
              case Some(bytes) => CannotAssemble(lib, updated, threshold(bytes))
    ensures signed.Some? && Covers(lib, raw, extra) ==>
              && InjectBlockhash(lib, raw, blockhash).Some?
              && var updated := InjectBlockhash(lib, raw, blockhash).value;
                 && ExtractSignableBytes(lib, updated).Some?
                 && AllSlotsVerify(lib, updated, threshold(ExtractSignableBytes(lib, updated).value), signed.value)
  {
    var updated := InjectBlockhash(lib, raw, blockhash);
    if updated == None {
      return None;
    }
    var bytes := ExtractSignableBytes(lib, updated.value);
    if bytes == None {
      return None;
    }
    signed := AssembleSignedTxWithExtra(lib, updated.value, threshold(bytes.value), extra);
    if Covers(lib, raw, extra) {
      InjectionKeepsAccounts(lib, raw, blockhash);
    }
  }
}
