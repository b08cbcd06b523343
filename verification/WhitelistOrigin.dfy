/** Where the whitelist that auto mode trusts comes from: the configured seed, and the recipients of
    transactions that were put before the user ("Approve & Whitelist", onTelegramWhitelist in
    internal/partyb/service.go). */
module WhitelistOrigin {
  import A = Analyzer
  import B = PartyB
  import opened Protocol

  /** The user has been notified of the transaction and its request is cached. */
  predicate Shown(tx: B.Tx) {
    tx.ctl.handler == B.Cached || tx.ctl.decision == B.DEscalate
  }

  ghost predicate Origin(seed: set<string>, txs: map<TxId, B.Tx>, addr: string) {
    addr in seed || exists t :: t in txs && Shown(txs[t]) && addr in Recipients(txs[t])
  }

  /** The analyzer consulted no more than what is whitelisted now. */
  ghost predicate Consulted(tx: B.Tx, whitelist: set<string>) {
    tx.env.Some? ==> tx.env.value.whitelist <= whitelist
  }

  ghost predicate OriginInv(seed: set<string>, s: State) {
    && (forall addr :: addr in s.whitelist || addr in s.adding ==> Origin(seed, s.txs, addr))
    && (forall t :: t in s.txs ==> Consulted(s.txs[t], s.whitelist) && (s.txs[t].ch.reqCached ==> Shown(s.txs[t])))
  }

  /** A transaction only gains: its analysis, once made, and its showing to the user stay. */
  ghost predicate Gains(tx: B.Tx, next: B.Tx) {
    && next.req == tx.req && (tx.analysis.Some? ==> next.analysis == tx.analysis && next.env == tx.env)
    && (Shown(tx) ==> Shown(next))
  }

  lemma HandlerGains(tx: B.Tx, e: B.Event)
    requires B.ControlInv(tx.ctl) && B.AnalysisInv(tx) && B.Enabled(tx, e)
    ensures Gains(tx, B.HandlerStep(tx, e))
  {
    hide B.UpdateStatus, A.AnalysisOf;
  }

  lemma HandlerShows(tx: B.Tx, e: B.Event)
    requires B.ControlInv(tx.ctl) && B.AnalysisInv(tx) && B.Enabled(tx, e)
    ensures (tx.ch.reqCached ==> Shown(tx)) ==> (B.HandlerStep(tx, e).ch.reqCached ==> Shown(B.HandlerStep(tx, e)))
  {
    hide B.UpdateStatus, A.AnalysisOf;
  }

  lemma StepGains(tx: B.Tx, e: B.Event)
    requires B.ControlInv(tx.ctl) && B.AnalysisInv(tx) && B.Enabled(tx, e)
    ensures Gains(tx, B.Step(tx, e))
    ensures (tx.ch.reqCached ==> Shown(tx)) ==> (B.Step(tx, e).ch.reqCached ==> Shown(B.Step(tx, e)))
  {
    HandlerGains(tx, e);
    HandlerShows(tx, e);
    WaiterGains(tx, e);
    hide B.HandlerStep, B.WaiterStep, B.SignerStep, B.CallbackStep, B.ControlInv, B.AnalysisInv, B.Enabled;
    SignerCache(tx, e);
  }

  lemma WaiterGains(tx: B.Tx, e: B.Event)
    requires B.Enabled(tx, e)
    ensures B.WaiterStep(tx, e).ch.reqCached ==> tx.ch.reqCached
  {
    hide B.UpdateStatus;
  }

  lemma SignerCache(tx: B.Tx, e: B.Event)
    requires B.Enabled(tx, e)
    ensures B.SignerStep(tx, e).ch.reqCached == tx.ch.reqCached
    ensures B.CallbackStep(tx, e).ch.reqCached == tx.ch.reqCached
  {
    hide B.UpdateStatus;
  }

  lemma StepConsults(tx: B.Tx, e: B.Event, whitelist: set<string>)
    requires B.ControlInv(tx.ctl) && B.AnalysisInv(tx) && B.Enabled(tx, e) && Consulted(tx, whitelist)
    requires e.Analyze? ==> e.env.whitelist <= whitelist
    ensures Consulted(B.Step(tx, e), whitelist)
  {
    if !e.Analyze? {
      OnlyAnalyzeAnalyses(tx, e);
    }
    hide A.AnalysisOf, B.UpdateStatus;
  }

  lemma OnlyAnalyzeAnalyses(tx: B.Tx, e: B.Event)
    requires B.Enabled(tx, e) && !e.Analyze?
    ensures B.Step(tx, e).env == tx.env
  {
    hide B.UpdateStatus, A.AnalysisOf;
  }

  /** An origin is never lost. */
  lemma OriginStays(seed: set<string>, txs: map<TxId, B.Tx>, t: TxId, tx: B.Tx, addr: string)
    requires Origin(seed, txs, addr)
    requires t in txs ==> Gains(txs[t], tx) && (Shown(txs[t]) ==> txs[t].analysis.Some?)
    ensures Origin(seed, txs[t := tx], addr)
  {
    if addr !in seed {
      var u :| u in txs && Shown(txs[u]) && addr in Recipients(txs[u]);
      assert Shown(txs[t := tx][u]) && addr in Recipients(txs[t := tx][u]);
    }
  }

  /** Replacing one transaction by its successor, or adding one. */
  lemma TxChanges(seed: set<string>, s: State, next: State, t: TxId, tx: B.Tx)
    requires OriginInv(seed, s) && next.txs == s.txs[t := tx]
    requires next.whitelist == s.whitelist && next.adding == s.adding
    requires t in s.txs ==> Gains(s.txs[t], tx) && (Shown(s.txs[t]) ==> s.txs[t].analysis.Some?)
    requires Consulted(tx, s.whitelist) && (tx.ch.reqCached ==> Shown(tx))
    ensures OriginInv(seed, next)
  {
    hide Origin, Consulted, Shown, Gains;
    forall addr | addr in next.whitelist || addr in next.adding ensures Origin(seed, next.txs, addr) {
      OriginStays(seed, s.txs, t, tx, addr);
    }
  }

  lemma TxSteps(seed: set<string>, s: State, next: State, t: TxId, e: B.Event)
    requires OriginInv(seed, s) && TxsInv(s) && t in s.txs && B.Enabled(s.txs[t], e)
    requires e.Analyze? ==> e.env.whitelist <= s.whitelist
    requires next.txs == s.txs[t := B.Step(s.txs[t], e)]
    requires next.whitelist == s.whitelist && next.adding == s.adding
    ensures OriginInv(seed, next)
  {
    var tx := s.txs[t];
    assert B.TxInv(tx);
    hide TxsInv, B.Step, B.Enabled, Consulted;
    StepGains(tx, e);
    StepConsults(tx, e, s.whitelist);
    TxChanges(seed, s, next, t, B.Step(tx, e));
  }

  /** Approve & Whitelist sets out to add the recipients of a transaction the user was shown. */
  lemma Whitelists(seed: set<string>, s: State, t: TxId)
    requires OriginInv(seed, s) && t in s.txs && s.txs[t].ch.reqCached
    ensures OriginInv(seed, s.(adding := s.adding + Recipients(s.txs[t])))
  {
    hide Shown, Recipients, Consulted;
  }

  /** Each addition is one write, and nothing looked up before is affected. */
  lemma Adds(seed: set<string>, s: State, addr: string)
    requires OriginInv(seed, s) && addr in s.adding
    ensures OriginInv(seed, s.(whitelist := s.whitelist + {addr}))
  {
    hide Origin, Shown;
  }

  lemma StepKeepsOrigin(c: Codec, seed: set<string>, s: State, e: Event)
    requires Inv(c, s) && OriginInv(seed, s) && Enabled(c, s, e)
    ensures OriginInv(seed, Step(c, s, e))
  {
    hide CallsInv, NetInv, QueueInv, RunsInv, OnceInv, FedInv, TxsInv, Recipients, B.Enabled, B.Step, Origin, Shown;
    if e.BReceive? {
      assert Consulted(B.NewTx(e.rid, e.req), s.whitelist);
      TxChanges(seed, s, Step(c, s, e), e.txid, B.NewTx(e.rid, e.req));
    } else if e.BStep? {
      TxSteps(seed, s, Step(c, s, e), e.txid, e.e);
    } else if e.BReady? {
      Delivers(c, seed, s, e);
    } else if e.BWhitelist? {
      Whitelists(seed, s, e.txid);
    } else if e.BAdd? {
      Adds(seed, s, e.addr);
    } else {
      hide Step, Enabled;
      assert !ByPartyB(e);
    }
  }

  lemma Delivers(c: Codec, seed: set<string>, s: State, e: Event)
    requires Inv(c, s) && OriginInv(seed, s) && Enabled(c, s, e) && e.BReady?
    ensures OriginInv(seed, Step(c, s, e))
  {
    hide CallsInv, NetInv, QueueInv, RunsInv, OnceInv, FedInv, TxsInv, Recipients, B.Enabled, B.Step, Origin, Shown;
    if e.txid in s.txs && B.Enabled(s.txs[e.txid], B.Ready(e.msg)) {
      TxSteps(seed, s, Step(c, s, e), e.txid, B.Ready(e.msg));
    }
  }

  lemma {:induction false} ExecutionKeepsOrigin(c: Codec, seed: set<string>, ss: seq<State>, i: nat)
    requires Execution(c, seed, ss) && i < |ss|
    ensures OriginInv(seed, ss[i])
  {
    hide Inv, OriginInv, Step, Enabled;
    if i == 0 {
      InitOrigin(seed);
    } else {
      ExecutionKeepsOrigin(c, seed, ss, i - 1);
      ExecutionKeepsInv(c, seed, ss, i - 1);
      assert Moves(c, ss[i - 1], ss[i - 1 + 1]);
      var e :| Enabled(c, ss[i - 1], e) && ss[i] == Step(c, ss[i - 1], e);
      StepKeepsOrigin(c, seed, ss[i - 1], e);
    }
  }

  lemma InitOrigin(seed: set<string>)
    ensures OriginInv(seed, Init(seed))
  {
  }

  /** In every execution, a transaction that auto mode approved names somebody who was whitelisted by the
      configuration, or whom the user was shown as a recipient of an escalated transaction: among the
      recipients in the bytes, if they name any, and among the claimed ones otherwise. */
  lemma AutoNamesAKnownRecipient(c: Codec, seed: set<string>, ss: seq<State>, i: nat, t: TxId)
    requires Execution(c, seed, ss) && i < |ss| && t in ss[i].txs
    requires ss[i].txs[t].entries != [] && ss[i].txs[t].ctl.decision != B.DEscalate
    ensures ss[i].txs[t].env.Some?
    ensures var tx := ss[i].txs[t];
            var env := tx.env.value;
            var to := if A.BytesName(env, tx.req) then A.DecodedTx(env, tx.req).value.to else tx.req.to;
            exists k :: 0 <= k < |to| && Origin(seed, ss[i].txs, A.Lower(to[k]))
  {
    hide Execution, Inv, OriginInv, Origin;
    ExecutionKeepsInv(c, seed, ss, i);
    ExecutionKeepsOrigin(c, seed, ss, i);
    StateNamesAKnownRecipient(c, seed, ss[i], t);
  }

  lemma StateNamesAKnownRecipient(c: Codec, seed: set<string>, s: State, t: TxId)
    requires Inv(c, s) && OriginInv(seed, s) && t in s.txs
    requires s.txs[t].entries != [] && s.txs[t].ctl.decision != B.DEscalate
    ensures s.txs[t].env.Some?
    ensures var tx := s.txs[t];
            var env := tx.env.value;
            var to := if A.BytesName(env, tx.req) then A.DecodedTx(env, tx.req).value.to else tx.req.to;
            exists k :: 0 <= k < |to| && Origin(seed, s.txs, A.Lower(to[k]))
  {
    hide CallsInv, NetInv, QueueInv, RunsInv, OnceInv, FedInv, Origin, A.AnalysisOf;
    var tx := s.txs[t];
    assert B.TxInv(tx) && Consulted(tx, s.whitelist);
    B.AutoEntryAnalysis(tx);
    B.EntryNotRejected(tx);
    hide B.TxInv;
    A.RestsOnBytesIff(tx.env.value, tx.req);
    var to := if A.BytesName(tx.env.value, tx.req) then A.DecodedTx(tx.env.value, tx.req).value.to else tx.req.to;
    assert A.AnyListed(tx.env.value, to);
    var k :| 0 <= k < |to| && A.Listed(tx.env.value, to[k]);
    assert Origin(seed, s.txs, A.Lower(to[k]));
  }

  // ----- what the press is for -----

  /** The address is a recipient in the bytes, if they name any, and else a claimed one. */
  predicate NamedBy(tx: B.Tx, addr: string) {
    if tx.analysis.Some? && tx.analysis.value.decoded.Some? && tx.analysis.value.decoded.value.to != [] then
      addr in tx.analysis.value.decoded.value.to
    else addr in tx.req.to
  }

  /** Once a shown transaction is whitelisted, each of its recipients can be added, and an analyzer that consults
      the whitelist then finds it: from any execution there is one that goes on so. */
  lemma PressedRecipientsGetListed(c: Codec, seed: set<string>, ss: seq<State>, t: TxId, addr: string)
    returns (next: seq<State>)
    requires ss != [] && Execution(c, seed, ss) && t in Last(ss).txs && Last(ss).txs[t].ch.reqCached
    requires NamedBy(Last(ss).txs[t], addr)
    ensures next != [] && Execution(c, seed, next)
    ensures Last(next).whitelist == Last(ss).whitelist + {A.Lower(addr)}
    ensures forall env: A.Env :: env.whitelist == Last(next).whitelist && addr !in env.failing ==> A.Listed(env, addr)
  {
    hide Execution, A.Lower;
    var tx := Last(ss).txs[t];
    RecipientAdded(tx, addr);
    hide Recipients, NamedBy;
    next := Extend(c, seed, ss, BWhitelist(t));
    next := Extend(c, seed, next, BAdd(A.Lower(addr)));
  }

  lemma RecipientAdded(tx: B.Tx, addr: string)
    requires NamedBy(tx, addr)
    ensures A.Lower(addr) in Recipients(tx)
  {
    hide A.Lower;
  }
}
