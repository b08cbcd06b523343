/** The signing protocol over Solana transactions: what both parties sign is the submitted message with, at
    most, another blockhash (internal/partya/service.go with internal/vm/solana/solana.go). */
module SolanaSigning {
  import opened Bytes
  import opened Options
  import A = Analyzer
  import B = PartyB
  import P = Protocol
  import S = SolanaSlots

  /** The Solana adapter as the protocol sees it. */
  function SolanaCodec(lib: S.Lib, encode: seq<Byte> -> string): P.Codec {
    P.Codec(encode, (raw, h) => S.InjectBlockhash(lib, raw, h), (path, raw) => S.ExtractSignableBytes(lib, raw))
  }

  /** Injection and extraction together serialize the message with the new blockhash. */
  lemma InjectedBytes(lib: S.Lib, raw: seq<Byte>, h: S.Key, updated: seq<Byte>)
    requires S.Sound(lib) && S.InjectBlockhash(lib, raw, h) == Some(updated)
    ensures lib.decode(raw).Some?
    ensures S.ExtractSignableBytes(lib, updated)
         == lib.encodeMessage(lib.decode(raw).value.msg.(blockhash := h))
  {
    S.InjectionKeepsAccounts(lib, raw, h);
  }

  /** In every execution, if both parties have entered tss.Sign for a transaction, then with the bytes of the
      message that was submitted for review, its accounts and instructions untouched. */
  lemma BothSignTheMessage(lib: S.Lib, encode: seq<Byte> -> string, seed: set<string>, ss: seq<P.State>,
                           i: nat, t: P.TxId, k: nat)
    requires S.Sound(lib) && P.Execution(SolanaCodec(lib, encode), seed, ss)
    requires i < |ss| && t in ss[i].txs && k < |ss[i].runs|
    requires ss[i].runs[k].txid == t && ss[i].runs[k].entered && ss[i].txs[t].entries != []
    ensures var (run, tx) := (ss[i].runs[k], ss[i].txs[t]);
            && run.msg.Some? && tx.entries == [B.Entry(tx.req.path, run.msg.value)]
            && tx.req.unsignedTx == encode(run.raw) && lib.decode(run.raw).Some?
            && var msg := lib.decode(run.raw).value.msg;
               lib.encodeMessage(msg) == run.msg || exists h :: lib.encodeMessage(msg.(blockhash := h)) == run.msg
  {
    hide P.Execution, S.Sound, S.InjectBlockhash;
    var c := SolanaCodec(lib, encode);
    P.Agreement(c, seed, ss, i, t, k);
    P.RunSigns(c, seed, ss, i, k);
    var run := ss[i].runs[k];
    if c.extract(run.path, run.raw) != run.msg {
      var h, updated :| c.inject(run.raw, h) == Some(updated) && c.extract(run.path, updated) == run.msg;
      InjectedBytes(lib, run.raw, h, updated);
    }
  }

  /** And every such message is signed in some execution: any request that is not rejected, any blockhash. */
  lemma FreshBlockhashIsSigned(lib: S.Lib, encode: seq<Byte> -> string, env: A.Env, req: A.Request, raw: seq<Byte>,
                               h: S.Key, updated: seq<Byte>)
    returns (ss: seq<P.State>)
    requires S.Sound(lib) && req.unsignedTx == encode(raw) && S.InjectBlockhash(lib, raw, h) == Some(updated)
    requires A.AnalysisOf(env, req).action != A.Reject
    requires lib.decode(raw).Some? && lib.encodeMessage(lib.decode(raw).value.msg.(blockhash := h)).Some?
    ensures ss != [] && P.Execution(SolanaCodec(lib, encode), env.whitelist, ss)
    ensures P.BothEntered(P.Last(ss), req, raw, lib.encodeMessage(lib.decode(raw).value.msg.(blockhash := h)).value)
  {
    hide P.Execution, S.Sound, A.AnalysisOf, P.BothEntered, S.InjectBlockhash;
    InjectedBytes(lib, raw, h, updated);
    ss := P.BothCanSignEscalated(SolanaCodec(lib, encode), env, req, raw, Some(h),
                                 lib.encodeMessage(lib.decode(raw).value.msg.(blockhash := h)).value);
  }
}
