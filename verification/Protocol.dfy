/** Both parties of a signature, the messages between them, and every interleaving of their steps
    (internal/partya/service.go with internal/partyb/service.go). Messages may be delayed, reordered or
    lost, but not duplicated or invented. */
module Protocol {
  import opened Bytes
  import opened Options
  import A = Analyzer
  import B = PartyB

  type TxId = nat

  /** base64, and the chain's blockhash injection and signable bytes for a derivation path. */
  datatype Codec = Codec(
    encode: seq<Byte> -> string,
    inject: (seq<Byte>, seq<Byte>) -> Option<seq<Byte>>,
    extract: (string, seq<Byte>) -> Option<seq<Byte>>)

  /** A call of Party A's Sign. */
  datatype Call = Call(req: A.Request, raw: seq<Byte>, waiting: bool)

  /** A call of Party A's runTSSSigning; msg is set once sign-ready has been sent. */
  datatype SignRun = SignRun(txid: TxId, path: string, raw: seq<Byte>, msg: Option<seq<Byte>>, entered: bool)

  datatype Response = ApproveTx(txid: TxId) | RejectTx | EscalateTx(txid: TxId)

  datatype Msg =
    | SignRequest(rid: nat, req: A.Request)
    | SignResponse(rid: nat, resp: Response)
    | SignApproved(txid: TxId, path: string)
    | SignReady(txid: TxId, msg: seq<Byte>)

  datatype State = State(
    calls: map<nat, Call>,
    nextRid: nat,
    queue: map<TxId, seq<Byte>>,    // Party A's escalation queue: raw unsigned transactions
    runs: seq<SignRun>,
    txs: map<TxId, B.Tx>,
    net: multiset<Msg>,
    whitelist: set<string>,
    adding: set<string>)            // addresses that onTelegramWhitelist has begun to add, one by one

  datatype Event =
    // Party A
    | ASend(req: A.Request, raw: seq<Byte>)
    | AGiveUp(rid: nat)
    | AResponse(rid: nat, resp: Response)
    | AApproved(txid: TxId, path: string, found: bool)   // found: adapter and key lookups succeed
    | ADelete(txid: TxId)
    | AReady(k: nat, blockhash: Option<seq<Byte>>)
    | AEnter(k: nat)
    // Party B
    | BReceive(rid: nat, req: A.Request, txid: TxId)
    | BStep(txid: TxId, e: B.Event)
    | BReady(txid: TxId, msg: seq<Byte>)
    | BWhitelist(txid: TxId) | BAdd(addr: string)
    // the network
    | Drop(m: Msg)

  function Init(whitelist: set<string>): State {
    State(map[], 0, map[], [], map[], multiset{}, whitelist, {})
  }

  /** What runTSSSigning signs: the bytes of the transaction, after injecting a fresh blockhash if one is due. */
  function FinalBytes(c: Codec, path: string, raw: seq<Byte>, blockhash: Option<seq<Byte>>): Option<seq<Byte>> {
    match blockhash
    case None => c.extract(path, raw)
    case Some(h) => (match c.inject(raw, h) case None => None case Some(updated) => c.extract(path, updated))
  }

  /** The addresses that "Approve & Whitelist" adds. */
  function Recipients(tx: B.Tx): set<string> {
    var to := A.EffectiveTo(tx.req, if tx.analysis.Some? then tx.analysis.value.decoded else None);
    set i | 0 <= i < |to| :: A.Lower(to[i])
  }

  /** The analyzer looks addresses up one by one while others are being added, so what it finds listed is
      some part of what is whitelisted in the end. */
  ghost predicate Enabled(c: Codec, s: State, e: Event) {
    match e
    case ASend(req, raw) => req.unsignedTx == c.encode(raw)
    case AGiveUp(rid) => rid in s.calls
    case AResponse(rid, resp) => SignResponse(rid, resp) in s.net
    case AApproved(t, path, _) => SignApproved(t, path) in s.net
    case ADelete(t) => true
    case AReady(k, h) =>
      k < |s.runs| && s.runs[k].msg == None && FinalBytes(c, s.runs[k].path, s.runs[k].raw, h).Some?
    case AEnter(k) => k < |s.runs| && s.runs[k].msg.Some? && !s.runs[k].entered
    case BReceive(rid, req, t) => SignRequest(rid, req) in s.net && t !in s.txs
    case BStep(t, e) =>
      t in s.txs && B.Enabled(s.txs[t], e) && !e.Ready? && (e.Analyze? ==> e.env.whitelist <= s.whitelist)
    case BReady(t, m) => SignReady(t, m) in s.net
    case BWhitelist(t) => t in s.txs && s.txs[t].ch.reqCached
    case BAdd(addr) => addr in s.adding
    case Drop(m) => m in s.net
  }

  function ResponseOf(t: TxId, tx: B.Tx): Msg {
    SignResponse(tx.rid, match tx.ctl.decision
                         case DApprove => ApproveTx(t)
                         case DEscalate => EscalateTx(t)
                         case _ => RejectTx)
  }

  /** What a step of Party B puts on the wire. */
  function Sends(t: TxId, tx: B.Tx, e: B.Event): multiset<Msg> {
    match e
    case Respond => multiset{ResponseOf(t, tx)}
    case Push => multiset{SignApproved(t, tx.req.path)}
    case _ => multiset{}
  }

  predicate ByPartyB(e: Event) {
    e.BReceive? || e.BStep? || e.BReady? || e.BWhitelist? || e.BAdd?
  }

  /** Steps of Party A and of the network touch nothing of Party B's. */
  function StepA(c: Codec, s: State, e: Event): (next: State)
    requires Enabled(c, s, e)
    ensures next.txs == s.txs && next.whitelist == s.whitelist && next.adding == s.adding
  {
    match e
    case ASend(req, raw) =>
      s.(calls := s.calls[s.nextRid := Call(req, raw, true)], nextRid := s.nextRid + 1,
         net := s.net + multiset{SignRequest(s.nextRid, req)})
    case AGiveUp(rid) => s.(calls := s.calls[rid := s.calls[rid].(waiting := false)])
    case AResponse(rid, resp) => Respond(s.(net := s.net - multiset{SignResponse(rid, resp)}), rid, resp)
    case AApproved(t, path, found) =>
      var next := s.(net := s.net - multiset{SignApproved(t, path)});
      if t in s.queue && found then next.(runs := s.runs + [SignRun(t, path, s.queue[t], None, false)]) else next
    case ADelete(t) => s.(queue := s.queue - {t})
    case AReady(k, h) =>
      var run := s.runs[k];
      var m := FinalBytes(c, run.path, run.raw, h);
      s.(runs := s.runs[k := run.(msg := m)], net := s.net + multiset{SignReady(run.txid, m.value)})
    case AEnter(k) => s.(runs := s.runs[k := s.runs[k].(entered := true)])
    case Drop(m) => s.(net := s.net - multiset{m})
    case _ => s
  }

  function StepB(c: Codec, s: State, e: Event): State
    requires Enabled(c, s, e)
  {
    match e
    case BReceive(rid, req, t) =>
      s.(txs := s.txs[t := B.NewTx(rid, req)], net := s.net - multiset{SignRequest(rid, req)})
    case BStep(t, e) => s.(txs := s.txs[t := B.Step(s.txs[t], e)], net := s.net + Sends(t, s.txs[t], e))
    case BReady(t, m) =>
      var next := s.(net := s.net - multiset{SignReady(t, m)});
      if t in s.txs && B.Enabled(s.txs[t], B.Ready(m)) then next.(txs := s.txs[t := B.Step(s.txs[t], B.Ready(m))])
      else next
    case BWhitelist(t) => s.(adding := s.adding + Recipients(s.txs[t]))
    case BAdd(addr) => s.(whitelist := s.whitelist + {addr})
    case _ => s
  }

  function Step(c: Codec, s: State, e: Event): State
    requires Enabled(c, s, e)
  {
    if ByPartyB(e) then StepB(c, s, e) else StepA(c, s, e)
  }

  /** Party A's Sign resumes with the response, unless it has given up. */
  function Respond(s: State, rid: nat, resp: Response): State {
    if rid !in s.calls || !s.calls[rid].waiting then s else
    var call := s.calls[rid];
    var next := s.(calls := s.calls[rid := call.(waiting := false)]);
    match resp
    case ApproveTx(t) => next.(runs := s.runs + [SignRun(t, call.req.path, call.raw, None, false)])
    case EscalateTx(t) => next.(queue := s.queue[t := call.raw])
    case RejectTx => next
  }

  // ----- the inductive invariant -----

  /** Party B has told Party A to start signing: by its response, or by the push. */
  predicate Granted(tx: B.Tx) {
    || (tx.ctl.handler == B.Done && tx.ctl.decision == B.DApprove)
    || (tx.ctl.verdict == B.VApprove && (tx.ctl.waiter == B.Pushed || B.WaiterOver(tx.ctl)))
  }

  predicate IsGrant(m: Msg) {
    m.SignApproved? || (m.SignResponse? && m.resp.ApproveTx?)
  }

  function GrantedTx(m: Msg): TxId
    requires IsGrant(m)
  {
    if m.SignApproved? then m.txid else m.resp.txid
  }

  predicate FromRun(runs: seq<SignRun>, t: TxId, m: seq<Byte>) {
    exists k :: 0 <= k < |runs| && runs[k].txid == t && runs[k].msg == Some(m)
  }

  ghost predicate CallsInv(c: Codec, s: State) {
    forall rid :: rid in s.calls ==> rid < s.nextRid && s.calls[rid].req.unsignedTx == c.encode(s.calls[rid].raw)
  }

  ghost predicate TxsInv(s: State) {
    forall t :: t in s.txs ==>
      B.TxInv(s.txs[t]) && s.txs[t].rid in s.calls && s.calls[s.txs[t].rid].req == s.txs[t].req
  }

  ghost predicate MsgInv(s: State, m: Msg) {
    match m
    case SignRequest(rid, req) => rid in s.calls && s.calls[rid].req == req
    case SignResponse(rid, resp) =>
      (match resp
       case ApproveTx(t) =>
         t in s.txs && s.txs[t].rid == rid && Granted(s.txs[t]) && s.txs[t].ctl.decision == B.DApprove
       case EscalateTx(t) => t in s.txs && s.txs[t].rid == rid
       case RejectTx => true)
    case SignApproved(t, path) =>
      t in s.txs && s.txs[t].req.path == path && Granted(s.txs[t]) && s.txs[t].ctl.decision == B.DEscalate
    case SignReady(t, m) => FromRun(s.runs, t, m)
  }

  ghost predicate NetInv(s: State) {
    forall m :: m in s.net ==> MsgInv(s, m)
  }

  ghost predicate QueueInv(c: Codec, s: State) {
    forall t :: t in s.queue ==> t in s.txs && s.txs[t].req.unsignedTx == c.encode(s.queue[t])
  }

  ghost predicate RunInv(c: Codec, s: State, run: SignRun) {
    && run.txid in s.txs && Granted(s.txs[run.txid])
    && run.path == s.txs[run.txid].req.path && s.txs[run.txid].req.unsignedTx == c.encode(run.raw)
    && (run.entered ==> run.msg.Some?)
    && (run.msg.Some? ==> exists h :: FinalBytes(c, run.path, run.raw, h) == run.msg)
  }

  ghost predicate RunsInv(c: Codec, s: State) {
    forall k :: 0 <= k < |s.runs| ==> RunInv(c, s, s.runs[k])
  }

  /** A grant is used up when it starts a run, so no transaction ever gets a second one. */
  ghost predicate OnceInv(s: State) {
    && (forall j, k :: 0 <= j < k < |s.runs| ==> s.runs[j].txid != s.runs[k].txid)
    && (forall m :: m in s.net && IsGrant(m) ==> s.net[m] == 1 && Unstarted(s.runs, GrantedTx(m)))
  }

  predicate Unstarted(runs: seq<SignRun>, t: TxId) {
    forall k :: 0 <= k < |runs| ==> runs[k].txid != t
  }

  /** Whatever Party B was fed or has taken as bytes to sign came from a run of Party A. */
  ghost predicate FedBy(tx: B.Tx, runs: seq<SignRun>, t: TxId) {
    forall m :: m in tx.ch.feeds || tx.ch.ready == Some(m) || tx.msg == Some(m) ==> FromRun(runs, t, m)
  }

  ghost predicate FedInv(s: State) {
    forall t :: t in s.txs ==> FedBy(s.txs[t], s.runs, t)
  }

  ghost predicate Inv(c: Codec, s: State) {
    CallsInv(c, s) && TxsInv(s) && NetInv(s) && QueueInv(c, s) && RunsInv(c, s) && OnceInv(s) && FedInv(s)
  }

  lemma InitInv(c: Codec, whitelist: set<string>)
    ensures Inv(c, Init(whitelist))
  {
  }

  // Party A's steps

  lemma KeepsASend(c: Codec, s: State, e: Event)
    requires Inv(c, s) && Enabled(c, s, e) && e.ASend?
    ensures Inv(c, Step(c, s, e))
  {
    hide Inv;
    Requests(c, s, e.req, e.raw);
  }

  lemma Requests(c: Codec, s: State, req: A.Request, raw: seq<Byte>)
    requires Inv(c, s) && req.unsignedTx == c.encode(raw)
    ensures Inv(c, s.(calls := s.calls[s.nextRid := Call(req, raw, true)], nextRid := s.nextRid + 1,
                      net := s.net + multiset{SignRequest(s.nextRid, req)}))
  {
    hide B.TxInv, Granted, FromRun, FedBy, FinalBytes;
  }

  lemma KeepsAGiveUp(c: Codec, s: State, e: Event)
    requires Inv(c, s) && Enabled(c, s, e) && (e.AGiveUp? || e.ADelete? || e.BWhitelist? || e.BAdd?)
    ensures Inv(c, Step(c, s, e))
  {
    hide Inv, Recipients;
    if e.AGiveUp? {
      Loses(c, s, s.net, s.calls[e.rid := s.calls[e.rid].(waiting := false)]);
    } else if e.ADelete? {
      Dequeues(c, s, e.txid);
    } else if e.BWhitelist? {
      IgnoresWhitelist(c, s, s.whitelist, s.adding + Recipients(s.txs[e.txid]));
    } else {
      IgnoresWhitelist(c, s, s.whitelist + {e.addr}, s.adding);
    }
  }

  /** Messages may vanish, and calls be given up. */
  lemma Loses(c: Codec, s: State, net: multiset<Msg>, calls: map<nat, Call>)
    requires Inv(c, s) && net <= s.net && calls.Keys == s.calls.Keys
    requires forall rid :: rid in calls ==> calls[rid].req == s.calls[rid].req && calls[rid].raw == s.calls[rid].raw
    ensures Inv(c, s.(net := net, calls := calls))
  {
    hide B.TxInv, Granted, FromRun, FedBy, FinalBytes, IsGrant, GrantedTx;
  }

  lemma Dequeues(c: Codec, s: State, t: TxId)
    requires Inv(c, s)
    ensures Inv(c, s.(queue := s.queue - {t}))
  {
    hide B.TxInv, Granted, FromRun, FedBy, FinalBytes, IsGrant, GrantedTx;
  }

  lemma IgnoresWhitelist(c: Codec, s: State, whitelist: set<string>, adding: set<string>)
    requires Inv(c, s)
    ensures Inv(c, s.(whitelist := whitelist, adding := adding))
  {
    hide B.TxInv, Granted, FromRun, FedBy, FinalBytes, IsGrant, GrantedTx;
  }

  lemma KeepsDrop(c: Codec, s: State, e: Event)
    requires Inv(c, s) && Enabled(c, s, e) && e.Drop?
    ensures Inv(c, Step(c, s, e))
  {
    hide Inv;
    Loses(c, s, s.net - multiset{e.m}, s.calls);
    assert s.(net := s.net - multiset{e.m}, calls := s.calls) == s.(net := s.net - multiset{e.m});
  }

  /** Two grants on the wire for one transaction would be the same message. */
  lemma OneGrantEach(c: Codec, s: State, m: Msg, m': Msg)
    requires Inv(c, s) && m in s.net && m' in s.net && IsGrant(m) && IsGrant(m') && GrantedTx(m) == GrantedTx(m')
    ensures m == m'
  {
    assert MsgInv(s, m) && MsgInv(s, m');
  }

  lemma Discards(c: Codec, s: State, m: Msg, calls: map<nat, Call>)
    requires Inv(c, s) && m in s.net && calls.Keys == s.calls.Keys
    requires forall rid :: rid in calls ==> calls[rid].req == s.calls[rid].req && calls[rid].raw == s.calls[rid].raw
    ensures Inv(c, s.(net := s.net - multiset{m}, calls := calls))
  {
    hide Inv;
    Loses(c, s, s.net - multiset{m}, calls);
  }

  lemma Enqueues(c: Codec, s: State, t: TxId, raw: seq<Byte>)
    requires Inv(c, s) && t in s.txs && s.txs[t].req.unsignedTx == c.encode(raw)
    ensures Inv(c, s.(queue := s.queue[t := raw]))
  {
    hide B.TxInv, Granted, FromRun, FedBy, FinalBytes, IsGrant, GrantedTx;
  }

  lemma Queues(c: Codec, s: State, rid: nat, t: TxId)
    requires Inv(c, s) && SignResponse(rid, EscalateTx(t)) in s.net && rid in s.calls
    ensures var call := s.calls[rid];
            Inv(c, s.(net := s.net - multiset{SignResponse(rid, EscalateTx(t))},
                      calls := s.calls[rid := call.(waiting := false)], queue := s.queue[t := call.raw]))
  {
    var m, call := SignResponse(rid, EscalateTx(t)), s.calls[rid];
    assert t in s.txs && s.txs[t].req.unsignedTx == c.encode(call.raw) by {
      assert MsgInv(s, m);
    }
    Discards(c, s, m, s.calls[rid := call.(waiting := false)]);
    hide Inv;
    Enqueues(c, s.(net := s.net - multiset{m}, calls := s.calls[rid := call.(waiting := false)]), t, call.raw);
  }

  lemma ApprovedRun(c: Codec, s: State, rid: nat, t: TxId)
    requires Inv(c, s) && SignResponse(rid, ApproveTx(t)) in s.net && rid in s.calls
    ensures RunInv(c, s, SignRun(t, s.calls[rid].req.path, s.calls[rid].raw, None, false))
  {
    hide B.TxInv, Granted, FromRun, OnceInv, FedInv, QueueInv;
    assert MsgInv(s, SignResponse(rid, ApproveTx(t)));
  }

  lemma Approves(c: Codec, s: State, rid: nat, t: TxId)
    requires Inv(c, s) && SignResponse(rid, ApproveTx(t)) in s.net && rid in s.calls
    ensures var call := s.calls[rid];
            Inv(c, s.(net := s.net - multiset{SignResponse(rid, ApproveTx(t))},
                      calls := s.calls[rid := call.(waiting := false)],
                      runs := s.runs + [SignRun(t, call.req.path, call.raw, None, false)]))
  {
    hide Inv, RunInv;
    var m, call := SignResponse(rid, ApproveTx(t)), s.calls[rid];
    ApprovedRun(c, s, rid, t);
    StartsRun(c, s, m, s.calls[rid := call.(waiting := false)], SignRun(t, call.req.path, call.raw, None, false));
  }

  lemma KeepsAResponse(c: Codec, s: State, e: Event)
    requires Inv(c, s) && Enabled(c, s, e) && e.AResponse?
    ensures Inv(c, Step(c, s, e))
  {
    hide Inv;
    var m := SignResponse(e.rid, e.resp);
    if e.rid in s.calls && s.calls[e.rid].waiting {
      if e.resp.ApproveTx? {
        Approves(c, s, e.rid, e.resp.txid);
      } else if e.resp.EscalateTx? {
        Queues(c, s, e.rid, e.resp.txid);
      } else {
        Discards(c, s, m, s.calls[e.rid := s.calls[e.rid].(waiting := false)]);
      }
    } else {
      Discards(c, s, m, s.calls);
    }
  }

  lemma KeepsAApproved(c: Codec, s: State, e: Event)
    requires Inv(c, s) && Enabled(c, s, e) && e.AApproved?
    ensures Inv(c, Step(c, s, e))
  {
    hide B.TxInv, FromRun, FedBy, FinalBytes, B.WaiterOver;
    var m := SignApproved(e.txid, e.path);
    assert MsgInv(s, m);
    if e.txid in s.queue && e.found {
      StartsRun(c, s, m, s.calls, SignRun(e.txid, e.path, s.queue[e.txid], None, false));
    }
  }

  /** Runs are only added, and their bytes only set once. */
  ghost predicate Extends(runs: seq<SignRun>, next: seq<SignRun>) {
    && |runs| <= |next|
    && forall k :: 0 <= k < |runs| ==>
         next[k].txid == runs[k].txid && (runs[k].msg.Some? ==> next[k].msg == runs[k].msg)
  }

  lemma FromRunStays(runs: seq<SignRun>, next: seq<SignRun>, t: TxId, m: seq<Byte>)
    requires Extends(runs, next) && FromRun(runs, t, m)
    ensures FromRun(next, t, m)
  {
    var k :| 0 <= k < |runs| && runs[k].txid == t && runs[k].msg == Some(m);
    assert next[k].txid == t && next[k].msg == Some(m);
  }

  lemma FromRunHere(runs: seq<SignRun>, k: nat)
    requires k < |runs| && runs[k].msg.Some?
    ensures FromRun(runs, runs[k].txid, runs[k].msg.value)
  {
  }

  /** What the messages and Party B's buffers say about runs survives an extension. */
  lemma RunsExtend(s: State, next: State)
    requires FedInv(s) && NetInv(s) && Extends(s.runs, next.runs) && next.txs == s.txs && next.net <= s.net
    requires next.calls.Keys == s.calls.Keys && forall rid :: rid in s.calls ==> next.calls[rid].req == s.calls[rid].req
    ensures FedInv(next) && NetInv(next)
  {
    hide FromRun, Extends, Granted;
    forall t, m | FromRun(s.runs, t, m) ensures FromRun(next.runs, t, m) {
      FromRunStays(s.runs, next.runs, t, m);
    }
    assert FedInv(next);
    assert NetInv(next) by {
      forall m | m in next.net ensures MsgInv(next, m) {
        assert m in s.net && MsgInv(s, m);
      }
    }
  }

  /** Starting a run on a grant just taken off the wire. */
  lemma StartsRun(c: Codec, s: State, m: Msg, calls: map<nat, Call>, run: SignRun)
    requires Inv(c, s) && m in s.net && IsGrant(m) && run.txid == GrantedTx(m)
    requires RunInv(c, s, run)
    requires calls.Keys == s.calls.Keys
    requires forall rid :: rid in calls ==> calls[rid].req == s.calls[rid].req && calls[rid].raw == s.calls[rid].raw
    ensures Inv(c, s.(net := s.net - multiset{m}, calls := calls, runs := s.runs + [run]))
  {
    hide B.TxInv, Granted, FinalBytes, MsgInv, FromRun, IsGrant, GrantedTx, FedBy;
    var next := s.(net := s.net - multiset{m}, calls := calls, runs := s.runs + [run]);
    RunsExtend(s, next);
    assert OnceInv(next) by {
      StartsOnce(c, s, m, run);
    }
    hide OnceInv, NetInv, FedInv;
  }

  lemma StartsOnce(c: Codec, s: State, m: Msg, run: SignRun)
    requires Inv(c, s) && m in s.net && IsGrant(m) && run.txid == GrantedTx(m)
    ensures OnceInv(s.(net := s.net - multiset{m}, runs := s.runs + [run]))
  {
    hide IsGrant, GrantedTx, CallsInv, TxsInv, NetInv, QueueInv, RunsInv, FedInv;
    var next := s.(net := s.net - multiset{m}, runs := s.runs + [run]);
    forall m' | m' in next.net && IsGrant(m') ensures Unstarted(next.runs, GrantedTx(m')) {
      if GrantedTx(m) == GrantedTx(m') {
        OneGrantEach(c, s, m, m');
      }
    }
  }

  /** Setting the bytes of a run, or entering tss.Sign in it. */
  lemma ProgressesRun(c: Codec, s: State, k: nat, run: SignRun)
    requires Inv(c, s) && k < |s.runs| && RunInv(c, s, run)
    requires run.txid == s.runs[k].txid && (s.runs[k].msg.Some? ==> run.msg == s.runs[k].msg)
    ensures Inv(c, s.(runs := s.runs[k := run]))
  {
    hide B.TxInv, Granted, FinalBytes, MsgInv, FromRun, IsGrant, GrantedTx, FedBy;
    var next := s.(runs := s.runs[k := run]);
    RunsExtend(s, next);
    assert OnceInv(next);
    hide OnceInv, NetInv, FedInv;
  }

  /** Putting a message on the wire. */
  lemma Emits(c: Codec, s: State, m: Msg)
    requires Inv(c, s) && MsgInv(s, m)
    requires IsGrant(m) ==> m !in s.net && Unstarted(s.runs, GrantedTx(m))
    ensures Inv(c, s.(net := s.net + multiset{m}))
  {
    hide B.TxInv, Granted, FromRun, FedBy, FinalBytes;
  }

  lemma KeepsAEnter(c: Codec, s: State, e: Event)
    requires Inv(c, s) && Enabled(c, s, e) && e.AEnter?
    ensures Inv(c, Step(c, s, e))
  {
    hide CallsInv, TxsInv, NetInv, QueueInv, OnceInv, FedInv;
    ProgressesRun(c, s, e.k, s.runs[e.k].(entered := true));
  }

  lemma ReadyRun(c: Codec, s: State, k: nat, h: Option<seq<Byte>>)
    requires Inv(c, s) && k < |s.runs|
    requires FinalBytes(c, s.runs[k].path, s.runs[k].raw, h).Some?
    ensures RunInv(c, s, s.runs[k].(msg := FinalBytes(c, s.runs[k].path, s.runs[k].raw, h)))
  {
    hide FinalBytes, Granted;
    assert RunInv(c, s, s.runs[k]);
  }

  lemma KeepsAReady(c: Codec, s: State, e: Event)
    requires Inv(c, s) && Enabled(c, s, e) && e.AReady?
    ensures Inv(c, Step(c, s, e))
  {
    hide Inv, FinalBytes, RunInv, Granted;
    var run := s.runs[e.k];
    var m := FinalBytes(c, run.path, run.raw, e.blockhash);
    ReadyRun(c, s, e.k, e.blockhash);
    ProgressesRun(c, s, e.k, run.(msg := m));
    var next := s.(runs := s.runs[e.k := run.(msg := m)]);
    FromRunHere(next.runs, e.k);
    hide FromRun;
    Emits(c, next, SignReady(run.txid, m.value));
  }

  // Party B's steps

  lemma KeepsBReceive(c: Codec, s: State, e: Event)
    requires Inv(c, s) && Enabled(c, s, e) && e.BReceive?
    ensures Inv(c, Step(c, s, e))
  {
    hide B.NewTx;
    var m := SignRequest(e.rid, e.req);
    assert MsgInv(s, m);
    hide Inv;
    Discards(c, s, m, s.calls);
    var next := s.(net := s.net - multiset{m});
    assert s.(net := s.net - multiset{m}, calls := s.calls) == next;
    AddsTx(c, next, e.rid, e.req, e.txid);
  }

  /** A new transaction has neither been granted nor fed anything. */
  lemma AddsTx(c: Codec, s: State, rid: nat, req: A.Request, t: TxId)
    requires Inv(c, s) && t !in s.txs && rid in s.calls && s.calls[rid].req == req
    ensures Inv(c, s.(txs := s.txs[t := B.NewTx(rid, req)]))
  {
    hide B.NewTx, B.TxInv, FromRun, FedBy, FinalBytes, Granted, IsGrant, GrantedTx, Unstarted;
    FreshTx(rid, req, s.runs, t);
  }

  lemma FreshTx(rid: nat, req: A.Request, runs: seq<SignRun>, t: TxId)
    ensures var tx := B.NewTx(rid, req);
            B.TxInv(tx) && tx.rid == rid && tx.req == req && FedBy(tx, runs, t)
  {
    hide B.TxInv, FromRun;
    B.NewTxInv(rid, req);
  }

  /** A grant happens once: at the approving response, or at the push, and is never taken back. */
  lemma StepGrants(tx: B.Tx, e: B.Event)
    requires B.ControlInv(tx.ctl) && B.Enabled(tx, e)
    ensures Granted(tx) ==> Granted(B.Step(tx, e)) && B.Step(tx, e).ctl.decision == tx.ctl.decision
    ensures e.Respond? && tx.ctl.decision == B.DApprove ==> !Granted(tx)
    ensures e.Push? ==> !Granted(tx)
    ensures (e.Respond? && tx.ctl.decision == B.DApprove) || e.Push? ==>
              Granted(B.Step(tx, e)) && B.Step(tx, e).ctl.decision == if e.Push? then B.DEscalate else B.DApprove
  {
    hide B.UpdateStatus;
  }

  /** Party B's buffers take in nothing but the transport's deliveries. */
  lemma StepKeepsFed(tx: B.Tx, e: B.Event, runs: seq<SignRun>, t: TxId)
    requires FedBy(tx, runs, t) && B.Enabled(tx, e) && (e.Ready? ==> FromRun(runs, t, e.msg))
    ensures FedBy(B.Step(tx, e), runs, t)
  {
    hide FromRun, B.UpdateStatus;
  }

  lemma UpdatesTx(c: Codec, s: State, t: TxId, tx: B.Tx)
    requires Inv(c, s) && t in s.txs
    requires B.TxInv(tx) && tx.rid == s.txs[t].rid && tx.req == s.txs[t].req && FedBy(tx, s.runs, t)
    requires Granted(s.txs[t]) ==> Granted(tx) && tx.ctl.decision == s.txs[t].ctl.decision
    ensures Inv(c, s.(txs := s.txs[t := tx]))
  {
    hide B.TxInv, Granted, FromRun, FedBy, FinalBytes, IsGrant, GrantedTx;
  }

  lemma NoGrantYet(c: Codec, s: State, t: TxId)
    requires Inv(c, s) && t in s.txs && !Granted(s.txs[t])
    ensures Unstarted(s.runs, t)
    ensures forall m :: m in s.net && IsGrant(m) ==> GrantedTx(m) != t
  {
    hide B.TxInv, Granted, FromRun, FedBy, FinalBytes;
    forall m | m in s.net && IsGrant(m) ensures GrantedTx(m) != t {
      assert MsgInv(s, m);
    }
  }

  /** The step itself, before anything is sent. */
  lemma StepsTx(c: Codec, s: State, t: TxId, e: B.Event)
    requires Inv(c, s) && t in s.txs && B.Enabled(s.txs[t], e) && (e.Ready? ==> FromRun(s.runs, t, e.msg))
    ensures Inv(c, s.(txs := s.txs[t := B.Step(s.txs[t], e)]))
  {
    var tx := s.txs[t];
    B.StepKeepsInv(tx, e);
    B.StepKeepsGenuine(tx, e);
    assert B.ControlInv(tx.ctl);
    hide B.Step, B.Enabled, B.TxInv, Granted, FromRun, FedBy;
    StepGrants(tx, e);
    StepKeepsFed(tx, e, s.runs, t);
    UpdatesTx(c, s, t, B.Step(tx, e));
  }

  /** What is known of a transaction's step when it answers or pushes. */
  lemma SendsOnce(c: Codec, s: State, t: TxId, e: B.Event, next: B.Tx)
    requires Inv(c, s) && t in s.txs && B.Enabled(s.txs[t], e) && (e.Respond? || e.Push?)
    requires next == B.Step(s.txs[t], e)
    ensures next.rid == s.txs[t].rid && next.req == s.txs[t].req
    ensures e.Push? || s.txs[t].ctl.decision == B.DApprove ==>
              && Granted(next) && next.ctl.decision == (if e.Push? then B.DEscalate else B.DApprove)
              && Unstarted(s.runs, t) && forall m :: m in s.net && IsGrant(m) ==> GrantedTx(m) != t
  {
    var tx := s.txs[t];
    assert B.TxInv(tx);
    hide B.Step, B.Enabled, Granted, IsGrant, CallsInv, NetInv, QueueInv, RunsInv, OnceInv, FedInv;
    B.StepKeepsGenuine(tx, e);
    StepGrants(tx, e);
    if !Granted(tx) {
      NoGrantYet(c, s, t);
    }
    hide Inv, B.TxInv;
  }

  lemma Responds(c: Codec, s: State, t: TxId)
    requires Inv(c, s) && t in s.txs && B.Enabled(s.txs[t], B.Respond)
    ensures Inv(c, s.(txs := s.txs[t := B.Step(s.txs[t], B.Respond)], net := s.net + multiset{ResponseOf(t, s.txs[t])}))
  {
    hide Inv, B.Step, B.Enabled, Granted, Unstarted, FromRun;
    var tx := s.txs[t];
    var next := B.Step(tx, B.Respond);
    StepsTx(c, s, t, B.Respond);
    SendsOnce(c, s, t, B.Respond, next);
    Emits(c, s.(txs := s.txs[t := next]), ResponseOf(t, tx));
  }

  lemma Pushes(c: Codec, s: State, t: TxId)
    requires Inv(c, s) && t in s.txs && B.Enabled(s.txs[t], B.Push)
    ensures Inv(c, s.(txs := s.txs[t := B.Step(s.txs[t], B.Push)],
                      net := s.net + multiset{SignApproved(t, s.txs[t].req.path)}))
  {
    hide Inv, B.Step, B.Enabled, Granted, Unstarted, FromRun;
    var tx := s.txs[t];
    var next := B.Step(tx, B.Push);
    StepsTx(c, s, t, B.Push);
    SendsOnce(c, s, t, B.Push, next);
    Emits(c, s.(txs := s.txs[t := next]), SignApproved(t, tx.req.path));
  }

  lemma KeepsBStep(c: Codec, s: State, e: Event)
    requires Inv(c, s) && Enabled(c, s, e) && e.BStep?
    ensures Inv(c, Step(c, s, e))
  {
    hide Inv, B.Step, B.Enabled;
    if e.e.Respond? {
      Responds(c, s, e.txid);
    } else if e.e.Push? {
      Pushes(c, s, e.txid);
    } else {
      StepsTx(c, s, e.txid, e.e);
      assert s.net + multiset{} == s.net;
    }
  }

  lemma ReadyIsFromRun(c: Codec, s: State, t: TxId, m: seq<Byte>)
    requires Inv(c, s) && SignReady(t, m) in s.net
    ensures FromRun(s.runs, t, m)
  {
    hide CallsInv, TxsInv, QueueInv, RunsInv, OnceInv, FedInv, Granted, FromRun;
    assert MsgInv(s, SignReady(t, m));
  }

  lemma KeepsBReady(c: Codec, s: State, e: Event)
    requires Inv(c, s) && Enabled(c, s, e) && e.BReady?
    ensures Inv(c, Step(c, s, e))
  {
    hide Inv, FromRun, B.Step;
    var m := SignReady(e.txid, e.msg);
    ReadyIsFromRun(c, s, e.txid, e.msg);
    Discards(c, s, m, s.calls);
    var next := s.(net := s.net - multiset{m});
    if e.txid in s.txs && B.Enabled(s.txs[e.txid], B.Ready(e.msg)) {
      StepsTx(c, next, e.txid, B.Ready(e.msg));
    }
  }

  /** Every step of either party, and of the network, keeps the invariant. */
  lemma StepKeepsInv(c: Codec, s: State, e: Event)
    requires Inv(c, s) && Enabled(c, s, e)
    ensures Inv(c, Step(c, s, e))
  {
    hide Inv, Step, Enabled;
    match e
    case ASend(_, _) => KeepsASend(c, s, e);
    case AGiveUp(_) => KeepsAGiveUp(c, s, e);
    case AResponse(_, _) => KeepsAResponse(c, s, e);
    case AApproved(_, _, _) => KeepsAApproved(c, s, e);
    case ADelete(_) => KeepsAGiveUp(c, s, e);
    case AReady(_, _) => KeepsAReady(c, s, e);
    case AEnter(_) => KeepsAEnter(c, s, e);
    case BReceive(_, _, _) => KeepsBReceive(c, s, e);
    case BStep(_, _) => KeepsBStep(c, s, e);
    case BReady(_, _) => KeepsBReady(c, s, e);
    case BWhitelist(_) => KeepsAGiveUp(c, s, e);
    case BAdd(_) => KeepsAGiveUp(c, s, e);
    case Drop(_) => KeepsDrop(c, s, e);
  }

  // ----- whole runs -----

  ghost predicate Moves(c: Codec, s: State, next: State) {
    exists e :: Enabled(c, s, e) && next == Step(c, s, e)
  }

  /** The states of both parties under some interleaving, from a seeded whitelist. */
  ghost predicate Execution(c: Codec, seed: set<string>, ss: seq<State>) {
    && ss != [] && ss[0] == Init(seed)
    && forall i :: 0 <= i < |ss| - 1 ==> Moves(c, ss[i], ss[i + 1])
  }

  lemma {:induction false} ExecutionKeepsInv(c: Codec, seed: set<string>, ss: seq<State>, i: nat)
    requires Execution(c, seed, ss) && i < |ss|
    ensures Inv(c, ss[i])
  {
    hide Inv, Step, Enabled, Init;
    if i == 0 {
      InitInv(c, seed);
    } else {
      ExecutionKeepsInv(c, seed, ss, i - 1);
      assert Moves(c, ss[i - 1], ss[i - 1 + 1]);
      var e :| Enabled(c, ss[i - 1], e) && ss[i] == Step(c, ss[i - 1], e);
      StepKeepsInv(c, ss[i - 1], e);
    }
  }

  /** In every execution, if both parties have entered tss.Sign for a transaction, they entered it with
      the same path and the same bytes, whatever blockhash Party A injected. */
  lemma Agreement(c: Codec, seed: set<string>, ss: seq<State>, i: nat, t: TxId, k: nat)
    requires Execution(c, seed, ss) && i < |ss| && t in ss[i].txs && k < |ss[i].runs|
    requires ss[i].runs[k].txid == t && ss[i].runs[k].entered && ss[i].txs[t].entries != []
    ensures ss[i].runs[k].msg.Some?
    ensures ss[i].txs[t].entries == [B.Entry(ss[i].runs[k].path, ss[i].runs[k].msg.value)]
  {
    hide Execution, Inv;
    ExecutionKeepsInv(c, seed, ss, i);
    StateAgrees(c, ss[i], t, k);
  }

  lemma StateAgrees(c: Codec, s: State, t: TxId, k: nat)
    requires Inv(c, s) && t in s.txs && k < |s.runs|
    requires s.runs[k].txid == t && s.runs[k].entered && s.txs[t].entries != []
    ensures s.runs[k].msg.Some? && s.txs[t].entries == [B.Entry(s.runs[k].path, s.runs[k].msg.value)]
  {
    hide Inv;
    Signed(c, s, t);
    RunFacts(c, s, k);
    var j :| 0 <= j < |s.runs| && s.runs[j].txid == t && s.runs[j].msg == Some(s.txs[t].entries[0].msg);
    assert j == k;
  }

  lemma RunFacts(c: Codec, s: State, k: nat)
    requires Inv(c, s) && k < |s.runs|
    ensures s.runs[k].txid in s.txs && s.runs[k].path == s.txs[s.runs[k].txid].req.path
    ensures s.runs[k].entered ==> s.runs[k].msg.Some?
    ensures forall j :: 0 <= j < |s.runs| && s.runs[j].txid == s.runs[k].txid ==> j == k
  {
    hide CallsInv, TxsInv, NetInv, QueueInv, FedInv, Granted, FinalBytes;
    assert RunInv(c, s, s.runs[k]);
  }

  /** What Party B enters tss.Sign with. */
  lemma Signed(c: Codec, s: State, t: TxId)
    requires Inv(c, s) && t in s.txs && s.txs[t].entries != []
    ensures |s.txs[t].entries| == 1 && s.txs[t].entries[0].path == s.txs[t].req.path
    ensures FromRun(s.runs, t, s.txs[t].entries[0].msg)
  {
    assert B.EntryInv(s.txs[t]);
    assert FedBy(s.txs[t], s.runs, t);
    hide Inv, B.TxInv, FromRun;
  }

  /** Party A enters tss.Sign at most once for a transaction, in any execution. */
  lemma PartyAOnce(c: Codec, seed: set<string>, ss: seq<State>, i: nat, j: nat, k: nat)
    requires Execution(c, seed, ss) && i < |ss| && j < |ss[i].runs| && k < |ss[i].runs|
    requires ss[i].runs[j].txid == ss[i].runs[k].txid
    ensures j == k
  {
    hide Execution, CallsInv, TxsInv, NetInv, QueueInv, FedInv, RunsInv;
    ExecutionKeepsInv(c, seed, ss, i);
  }

  /** The message that Party A sends with sign-ready: with a blockhash, the signable bytes of the transaction
      into which it has been injected, else those of the transaction itself. */
  lemma ReadySends(c: Codec, s: State, k: nat, h: Option<seq<Byte>>)
    requires Enabled(c, s, AReady(k, h))
    ensures var (run, next) := (s.runs[k], Step(c, s, AReady(k, h)));
            && |next.runs| == |s.runs| && next.runs[k].msg.Some?
            && next.net == s.net + multiset{SignReady(run.txid, next.runs[k].msg.value)}
            && (h == None ==> next.runs[k].msg == c.extract(run.path, run.raw))
            && (h.Some? ==> exists updated :: c.inject(run.raw, h.value) == Some(updated)
                                              && next.runs[k].msg == c.extract(run.path, updated))
  {
    if h.Some? {
      var updated :| c.inject(s.runs[k].raw, h.value) == Some(updated);
    }
  }

  /** In every execution the message of a run is such a message, of the very transaction that was submitted. */
  lemma RunSigns(c: Codec, seed: set<string>, ss: seq<State>, i: nat, k: nat)
    requires Execution(c, seed, ss) && i < |ss| && k < |ss[i].runs| && ss[i].runs[k].msg.Some?
    ensures var run := ss[i].runs[k];
            && run.txid in ss[i].txs && run.path == ss[i].txs[run.txid].req.path
            && ss[i].txs[run.txid].req.unsignedTx == c.encode(run.raw)
            && (c.extract(run.path, run.raw) == run.msg
                || exists h, updated :: c.inject(run.raw, h) == Some(updated)
                                        && c.extract(run.path, updated) == run.msg)
  {
    hide Execution, Inv, FinalBytes;
    ExecutionKeepsInv(c, seed, ss, i);
    RunSource(c, ss[i], k);
    var run := ss[i].runs[k];
    var h :| FinalBytes(c, run.path, run.raw, h) == run.msg;
    BytesSpelledOut(c, run.path, run.raw, h, run.msg.value);
  }

  lemma BytesSpelledOut(c: Codec, path: string, raw: seq<Byte>, h: Option<seq<Byte>>, m: seq<Byte>)
    requires FinalBytes(c, path, raw, h) == Some(m)
    ensures h == None ==> c.extract(path, raw) == Some(m)
    ensures h.Some? ==> exists updated :: c.inject(raw, h.value) == Some(updated) && c.extract(path, updated) == Some(m)
  {
    if h.Some? {
      var updated :| c.inject(raw, h.value) == Some(updated);
    }
  }

  /** Party B reads what Party A wrote: base64 decodes, and both have the same adapter for a path. */
  ghost predicate ReadsBack(c: Codec, env: A.Env) {
    && (forall raw :: env.base64(c.encode(raw)) == Some(raw))
    && (forall path, raw :: env.adapterFor(path).Some? ==>
          env.adapterFor(path).value.extract(raw) == c.extract(path, raw))
  }

  /** The message is that of the raw transaction in the request: raw is what Party B's own base64 reads, and
      the message is raw's signable bytes up to a fresh blockhash h. What the analysis decoded, if it decoded
      anything, is raw; and where there is an adapter and no blockhash, the message is what the analyzer
      recomputed, and the claimed bytes if those can be read. */
  ghost predicate SignsSubmitted(c: Codec, env: A.Env, tx: B.Tx, raw: seq<Byte>, h: Option<seq<Byte>>, msg: seq<Byte>)
    requires tx.analysis.Some?
  {
    && env.base64(tx.req.unsignedTx) == Some(raw)
    && (h == None ==> c.extract(tx.req.path, raw) == Some(msg))
    && (h.Some? ==> exists updated :: c.inject(raw, h.value) == Some(updated)
                                      && c.extract(tx.req.path, updated) == Some(msg))
    && match env.adapterFor(tx.req.path)
       case None => tx.analysis.value.decoded == None
       case Some(adapter) =>
         && tx.analysis.value.decoded == adapter.decode(raw)
         && (h == None ==>
               && adapter.extract(raw) == Some(msg)
               && (env.base64(tx.req.signableBytes).Some? ==> env.base64(tx.req.signableBytes) == Some(msg)))
  }

  /** Party B never signs anything but the transaction submitted for analysis, up to a fresh blockhash. */
  lemma SignsWhatWasAnalysed(c: Codec, seed: set<string>, ss: seq<State>, i: nat, t: TxId)
    requires Execution(c, seed, ss) && i < |ss| && t in ss[i].txs && ss[i].txs[t].entries != []
    ensures ss[i].txs[t].env.Some? && ss[i].txs[t].analysis.Some?
    ensures ReadsBack(c, ss[i].txs[t].env.value) ==>
              exists raw, h ::
                SignsSubmitted(c, ss[i].txs[t].env.value, ss[i].txs[t], raw, h, ss[i].txs[t].entries[0].msg)
  {
    hide Execution, Inv, FinalBytes, SignsSubmitted, ReadsBack;
    ExecutionKeepsInv(c, seed, ss, i);
    StateSigns(c, ss[i], t);
  }

  lemma StateSigns(c: Codec, s: State, t: TxId)
    requires Inv(c, s) && t in s.txs && s.txs[t].entries != []
    ensures s.txs[t].env.Some? && s.txs[t].analysis.Some?
    ensures ReadsBack(c, s.txs[t].env.value) ==>
              exists raw, h :: SignsSubmitted(c, s.txs[t].env.value, s.txs[t], raw, h, s.txs[t].entries[0].msg)
  {
    hide Inv, FinalBytes, SignsSubmitted, A.AnalysisOf, ReadsBack;
    var tx := s.txs[t];
    var m := tx.entries[0].msg;
    Signed(c, s, t);
    var k :| 0 <= k < |s.runs| && s.runs[k].txid == t && s.runs[k].msg == Some(m);
    RunSource(c, s, k);
    var h :| FinalBytes(c, s.runs[k].path, s.runs[k].raw, h) == s.runs[k].msg;
    NotRejected(c, s, t);
    if ReadsBack(c, tx.env.value) {
      SubmittedMessage(c, tx.env.value, tx, s.runs[k].raw, h, m);
    }
  }

  lemma RunSource(c: Codec, s: State, k: nat)
    requires Inv(c, s) && k < |s.runs| && s.runs[k].msg.Some?
    ensures var run := s.runs[k];
            && run.txid in s.txs && run.path == s.txs[run.txid].req.path
            && s.txs[run.txid].req.unsignedTx == c.encode(run.raw)
            && exists h :: FinalBytes(c, run.path, run.raw, h) == run.msg
  {
    hide CallsInv, TxsInv, NetInv, QueueInv, FedInv, OnceInv, Granted, FinalBytes;
    assert RunInv(c, s, s.runs[k]);
  }

  lemma NotRejected(c: Codec, s: State, t: TxId)
    requires Inv(c, s) && t in s.txs && s.txs[t].entries != []
    ensures s.txs[t].analysis.Some? && s.txs[t].analysis.value.action != A.Reject
    ensures s.txs[t].env.Some? && s.txs[t].analysis == Some(A.AnalysisOf(s.txs[t].env.value, s.txs[t].req))
  {
    hide CallsInv, NetInv, QueueInv, RunsInv, OnceInv, FedInv, B.TxInv;
    B.EntryNotRejected(s.txs[t]);
  }

  lemma SubmittedMessage(c: Codec, env: A.Env, tx: B.Tx, raw: seq<Byte>, h: Option<seq<Byte>>, m: seq<Byte>)
    requires ReadsBack(c, env) && tx.analysis == Some(A.AnalysisOf(env, tx.req)) && tx.analysis.value.action != A.Reject
    requires tx.req.unsignedTx == c.encode(raw) && FinalBytes(c, tx.req.path, raw, h) == Some(m)
    ensures SignsSubmitted(c, env, tx, raw, h, m)
  {
    BytesSpelledOut(c, tx.req.path, raw, h, m);
    A.RulesBindTheModel(env, tx.req);
    assert tx.analysis.value.decoded == A.DecodedTx(env, tx.req);
    hide A.AnalysisOf;
  }

  // ----- such executions are there -----

  function Last(ss: seq<State>): State
    requires ss != []
  {
    ss[|ss| - 1]
  }

  lemma Extend(c: Codec, seed: set<string>, ss: seq<State>, e: Event) returns (next: seq<State>)
    requires Execution(c, seed, ss) && Enabled(c, Last(ss), e)
    ensures next != [] && Execution(c, seed, next) && Last(next) == Step(c, Last(ss), e)
  {
    next := ss + [Step(c, Last(ss), e)];
    hide Enabled, Step, Init;
    assert Moves(c, Last(ss), Last(next));
    forall i | 0 <= i < |next| - 1 ensures Moves(c, next[i], next[i + 1]) {
      assert i < |ss| - 1 ==> Moves(c, ss[i], ss[i + 1]);
    }
  }

  /** One transaction at Party B, of the only call. */
  function Lone(req: A.Request, raw: seq<Byte>, waiting: bool, tx: B.Tx, runs: seq<SignRun>, net: multiset<Msg>,
                seed: set<string>, queue: map<TxId, seq<Byte>> := map[]): State
  {
    State(map[0 := Call(req, raw, waiting)], 1, queue, runs, map[0 := tx], net, seed, {})
  }

  /** A step of Party B that sends nothing. */
  lemma Silent(c: Codec, ss: seq<State>, req: A.Request, raw: seq<Byte>, waiting: bool, tx: B.Tx,
               runs: seq<SignRun>, net: multiset<Msg>, seed: set<string>, e: B.Event,
               queue: map<TxId, seq<Byte>> := map[])
    returns (next: seq<State>)
    requires ss != [] && Execution(c, seed, ss) && Last(ss) == Lone(req, raw, waiting, tx, runs, net, seed, queue)
    requires B.Enabled(tx, e) && !e.Ready? && !e.Respond? && !e.Push? && (e.Analyze? ==> e.env.whitelist <= seed)
    ensures next != [] && Execution(c, seed, next)
    ensures Last(next) == Lone(req, raw, waiting, B.Step(tx, e), runs, net, seed, queue)
  {
    hide Execution, B.Enabled, B.Step;
    next := Extend(c, seed, ss, BStep(0, e));
    assert map[0 := tx][0 := B.Step(tx, e)] == map[0 := B.Step(tx, e)];
    assert net + multiset{} == net;
  }

  lemma Requested(c: Codec, req: A.Request, raw: seq<Byte>, seed: set<string>) returns (ss: seq<State>)
    requires req.unsignedTx == c.encode(raw)
    ensures ss != [] && Execution(c, seed, ss)
    ensures Last(ss) == Lone(req, raw, true, B.NewTx(0, req), [], multiset{}, seed)
  {
    ss := [Init(seed)];
    assert Execution(c, seed, ss);
    hide Execution, B.NewTx;
    ss := Extend(c, seed, ss, ASend(req, raw));
    ss := Extend(c, seed, ss, BReceive(0, req, 0));
    assert multiset{SignRequest(0, req)} - multiset{SignRequest(0, req)} == multiset{};
  }

  /** A step of Party B that sends a message when nothing is on the wire. */
  lemma Speaks(c: Codec, ss: seq<State>, req: A.Request, raw: seq<Byte>, waiting: bool, tx: B.Tx, m: Msg,
               seed: set<string>, e: B.Event, queue: map<TxId, seq<Byte>> := map[])
    returns (next: seq<State>)
    requires ss != [] && Execution(c, seed, ss) && Last(ss) == Lone(req, raw, waiting, tx, [], multiset{}, seed, queue)
    requires B.Enabled(tx, e) && (e.Respond? || e.Push?) && Sends(0, tx, e) == multiset{m}
    ensures next != [] && Execution(c, seed, next)
    ensures Last(next) == Lone(req, raw, waiting, B.Step(tx, e), [], multiset{m}, seed, queue)
  {
    hide Execution, B.Step, B.Enabled, Sends;
    next := Extend(c, seed, ss, BStep(0, e));
    assert map[0 := tx][0 := B.Step(tx, e)] == map[0 := B.Step(tx, e)];
    assert multiset{} + multiset{m} == multiset{m};
  }

  /** Auto mode answers with an approval. */
  lemma Answers(c: Codec, env: A.Env, req: A.Request, raw: seq<Byte>) returns (ss: seq<State>, tx: B.Tx)
    requires req.unsignedTx == c.encode(raw)
    requires A.AnalysisOf(env, req).whitelisted && A.AnalysisOf(env, req).action != A.Reject
    ensures ss != [] && Execution(c, env.whitelist, ss) && B.AtSigning(tx, req) && !tx.ch.approvedPress
    ensures Last(ss) == Lone(req, raw, true, tx, [], multiset{SignResponse(0, ApproveTx(0))}, env.whitelist)
  {
    hide Execution, A.AnalysisOf, Enabled, Step;
    var seed := env.whitelist;
    ss := Requested(c, req, raw, seed);
    tx := B.NewTx(0, req);
    ss := Silent(c, ss, req, raw, true, tx, [], multiset{}, seed, B.Analyze(env));
    tx := B.Step(tx, B.Analyze(env));
    ss := Silent(c, ss, req, raw, true, tx, [], multiset{}, seed, B.Decide(true, true));
    tx := B.Step(tx, B.Decide(true, true));
    ss := Silent(c, ss, req, raw, true, tx, [], multiset{}, seed, B.MarkAutoApproved);
    tx := B.Step(tx, B.MarkAutoApproved);
    ss := Silent(c, ss, req, raw, true, tx, [], multiset{}, seed, B.StartAuto(true));
    tx := B.Step(tx, B.StartAuto(true));
    ss := Speaks(c, ss, req, raw, true, tx, SignResponse(0, ApproveTx(0)), seed, B.Respond);
    tx := B.Step(tx, B.Respond);
  }

  /** Party A takes the answer and starts its run. */
  lemma HandlesApproval(c: Codec, ss: seq<State>, req: A.Request, raw: seq<Byte>, tx: B.Tx, seed: set<string>)
    returns (next: seq<State>)
    requires ss != [] && Execution(c, seed, ss)
    requires Last(ss) == Lone(req, raw, true, tx, [], multiset{SignResponse(0, ApproveTx(0))}, seed)
    ensures next != [] && Execution(c, seed, next)
    ensures Last(next) == Lone(req, raw, false, tx, [SignRun(0, req.path, raw, None, false)], multiset{}, seed)
  {
    hide Execution, FinalBytes;
    next := Extend(c, seed, ss, AResponse(0, ApproveTx(0)));
    assert map[0 := Call(req, raw, true)][0 := Call(req, raw, false)] == map[0 := Call(req, raw, false)];
  }

  /** The bytes that a run sends, as ReadySends has them. */
  ghost predicate Sent(c: Codec, path: string, raw: seq<Byte>, h: Option<seq<Byte>>, m: seq<Byte>) {
    match h
    case None => c.extract(path, raw) == Some(m)
    case Some(b) => c.inject(raw, b).Some? && c.extract(path, c.inject(raw, b).value) == Some(m)
  }

  /** It sends its final bytes, and Party B's signer is waiting for them. */
  lemma Exchanges(c: Codec, ss: seq<State>, req: A.Request, raw: seq<Byte>, tx: B.Tx, seed: set<string>,
                  h: Option<seq<Byte>>, m: seq<Byte>, queue: map<TxId, seq<Byte>> := map[])
    returns (next: seq<State>)
    requires ss != [] && Execution(c, seed, ss) && Sent(c, req.path, raw, h, m)
    requires Last(ss) == Lone(req, raw, false, tx, [SignRun(0, req.path, raw, None, false)], multiset{}, seed, queue)
    requires B.Enabled(tx, B.Ready(m))
    ensures next != [] && Execution(c, seed, next)
    ensures Last(next) == Lone(req, raw, false, B.Step(tx, B.Ready(m)),
                               [SignRun(0, req.path, raw, Some(m), false)], multiset{}, seed, queue)
  {
    hide Execution, B.Step, B.Enabled;
    assert FinalBytes(c, req.path, raw, h) == Some(m);
    hide FinalBytes, Sent;
    next := Extend(c, seed, ss, AReady(0, h));
    assert Last(next) == Lone(req, raw, false, tx, [SignRun(0, req.path, raw, Some(m), false)],
                              multiset{SignReady(0, m)}, seed, queue);
    next := Receives(c, next, req, raw, tx, SignRun(0, req.path, raw, Some(m), false), seed, m, queue);
  }

  lemma Receives(c: Codec, ss: seq<State>, req: A.Request, raw: seq<Byte>, tx: B.Tx, run: SignRun, seed: set<string>,
                 m: seq<Byte>, queue: map<TxId, seq<Byte>>)
    returns (next: seq<State>)
    requires ss != [] && Execution(c, seed, ss) && B.Enabled(tx, B.Ready(m))
    requires Last(ss) == Lone(req, raw, false, tx, [run], multiset{SignReady(0, m)}, seed, queue)
    ensures next != [] && Execution(c, seed, next)
    ensures Last(next) == Lone(req, raw, false, B.Step(tx, B.Ready(m)), [run], multiset{}, seed, queue)
  {
    hide Execution, B.Step, B.Enabled;
    next := Extend(c, seed, ss, BReady(0, m));
    assert map[0 := tx][0 := B.Step(tx, B.Ready(m))] == map[0 := B.Step(tx, B.Ready(m))];
  }

  /** Both parties have entered tss.Sign for the submitted transaction with these bytes. */
  ghost predicate BothEntered(s: State, req: A.Request, raw: seq<Byte>, m: seq<Byte>) {
    && s.runs == [SignRun(0, req.path, raw, Some(m), true)]
    && 0 in s.txs && s.txs[0].req == req && s.txs[0].entries == [B.Entry(req.path, m)]
  }

  /** The executions that Agreement speaks of exist: a whitelisted request in auto mode, any blockhash. */
  lemma BothCanSign(c: Codec, env: A.Env, req: A.Request, raw: seq<Byte>, h: Option<seq<Byte>>, m: seq<Byte>)
    returns (ss: seq<State>)
    requires req.unsignedTx == c.encode(raw) && Sent(c, req.path, raw, h, m)
    requires A.AnalysisOf(env, req).whitelisted && A.AnalysisOf(env, req).action != A.Reject
    ensures ss != [] && Execution(c, env.whitelist, ss) && BothEntered(Last(ss), req, raw, m)
    ensures !Last(ss).txs[0].ch.approvedPress
  {
    hide Execution, A.AnalysisOf, Enabled, Step, Sent;
    var seed := env.whitelist;
    var tx: B.Tx;
    ss, tx := Answers(c, env, req, raw);
    ss := Silent(c, ss, req, raw, true, tx, [], multiset{SignResponse(0, ApproveTx(0))}, seed, B.RegisterReady);
    tx := B.Step(tx, B.RegisterReady);
    ss := HandlesApproval(c, ss, req, raw, tx, seed);
    ss := Exchanges(c, ss, req, raw, tx, seed, h, m);
    tx := B.Step(tx, B.Ready(m));
    assert Fed(tx, req, m);
    hide B.Step, B.Enabled, Fed;
    ss := Takes(c, ss, req, raw, tx, SignRun(0, req.path, raw, Some(m), false), seed, m);
  }

  /** The signer waits and its bytes are about to be sent to it. */
  ghost predicate Fed(tx: B.Tx, req: A.Request, m: seq<Byte>) {
    tx.ctl.signer == B.Awaiting && tx.ch.ready == None && m in tx.ch.feeds && tx.entries == [] && tx.req == req
  }

  lemma Takes(c: Codec, before: seq<State>, req: A.Request, raw: seq<Byte>, fed: B.Tx, run: SignRun, seed: set<string>,
              m: seq<Byte>, queue: map<TxId, seq<Byte>> := map[])
    returns (ss: seq<State>)
    requires before != [] && Execution(c, seed, before)
    requires Last(before) == Lone(req, raw, false, fed, [run], multiset{}, seed, queue)
    requires Fed(fed, req, m) && run.msg.Some? && !run.entered
    ensures ss != [] && Execution(c, seed, ss) && Last(ss).runs == [run.(entered := true)]
    ensures 0 in Last(ss).txs && Last(ss).txs[0].req == req && Last(ss).txs[0].entries == [B.Entry(req.path, m)]
    ensures Last(ss).txs[0].ch.approvedPress == fed.ch.approvedPress
  {
    hide Execution, Enabled, Step;
    var tx := fed;
    ss := Silent(c, before, req, raw, false, tx, [run], multiset{}, seed, B.SendReady(m), queue);
    tx := B.Step(tx, B.SendReady(m));
    ss := Silent(c, ss, req, raw, false, tx, [run], multiset{}, seed, B.TakeBytes, queue);
    tx := B.Step(tx, B.TakeBytes);
    ss := Enters(c, ss, req, raw, tx, run, seed, m, queue);
  }

  lemma Enters(c: Codec, before: seq<State>, req: A.Request, raw: seq<Byte>, got: B.Tx, run: SignRun, seed: set<string>,
               m: seq<Byte>, queue: map<TxId, seq<Byte>>)
    returns (ss: seq<State>)
    requires before != [] && Execution(c, seed, before)
    requires Last(before) == Lone(req, raw, false, got, [run], multiset{}, seed, queue)
    requires got.ctl.signer == B.Got && got.msg == Some(m) && got.entries == [] && got.req == req
    requires run.msg.Some? && !run.entered
    ensures ss != [] && Execution(c, seed, ss) && Last(ss).runs == [run.(entered := true)]
    ensures 0 in Last(ss).txs && Last(ss).txs[0].req == req && Last(ss).txs[0].entries == [B.Entry(req.path, m)]
    ensures Last(ss).txs[0].ch.approvedPress == got.ch.approvedPress
  {
    hide Execution, Enabled, Step;
    var tx := got;
    ss := Silent(c, before, req, raw, false, tx, [run], multiset{}, seed, B.LoadKey(true), queue);
    tx := B.Step(tx, B.LoadKey(true));
    ss := Silent(c, ss, req, raw, false, tx, [run], multiset{}, seed, B.EnterSign, queue);
    tx := B.Step(tx, B.EnterSign);
    assert [] + [B.Entry(req.path, m)] == [B.Entry(req.path, m)];
    ss := EntersA(c, ss, req, raw, tx, run, seed, queue);
  }

  lemma EntersA(c: Codec, before: seq<State>, req: A.Request, raw: seq<Byte>, tx: B.Tx, run: SignRun, seed: set<string>,
                queue: map<TxId, seq<Byte>>)
    returns (ss: seq<State>)
    requires before != [] && Execution(c, seed, before)
    requires Last(before) == Lone(req, raw, false, tx, [run], multiset{}, seed, queue) && run.msg.Some? && !run.entered
    ensures ss != [] && Execution(c, seed, ss)
    ensures Last(ss) == Lone(req, raw, false, tx, [run.(entered := true)], multiset{}, seed, queue)
  {
    hide Execution;
    ss := Extend(c, seed, before, AEnter(0));
  }

  // ----- and for an escalated request that the user approves -----

  /** Party B escalates and answers so. */
  lemma Escalates(c: Codec, env: A.Env, req: A.Request, raw: seq<Byte>) returns (ss: seq<State>, tx: B.Tx)
    requires req.unsignedTx == c.encode(raw) && A.AnalysisOf(env, req).action != A.Reject
    ensures ss != [] && Execution(c, env.whitelist, ss) && AwaitsPress(tx, req)
    ensures Last(ss) == Lone(req, raw, true, tx, [], multiset{SignResponse(0, EscalateTx(0))}, env.whitelist)
  {
    hide Execution, A.AnalysisOf, Enabled, Step;
    var seed := env.whitelist;
    ss := Requested(c, req, raw, seed);
    tx := B.NewTx(0, req);
    ss := Silent(c, ss, req, raw, true, tx, [], multiset{}, seed, B.Analyze(env));
    tx := B.Step(tx, B.Analyze(env));
    ss := Silent(c, ss, req, raw, true, tx, [], multiset{}, seed, B.Decide(false, true));
    tx := B.Step(tx, B.Decide(false, true));
    ss := Silent(c, ss, req, raw, true, tx, [], multiset{}, seed, B.Notify(true, true));
    tx := B.Step(tx, B.Notify(true, true));
    ss, tx := Replies(c, ss, req, raw, tx, seed);
  }

  lemma Replies(c: Codec, before: seq<State>, req: A.Request, raw: seq<Byte>, notified: B.Tx, seed: set<string>)
    returns (ss: seq<State>, tx: B.Tx)
    requires before != [] && Execution(c, seed, before)
    requires Last(before) == Lone(req, raw, true, notified, [], multiset{}, seed)
    requires notified.ctl.handler == B.Notified && notified.ctl.signer == B.NoSigner && notified.rid == 0
    requires notified.req == req && notified.entries == []
    ensures ss != [] && Execution(c, seed, ss) && AwaitsPress(tx, req)
    ensures Last(ss) == Lone(req, raw, true, tx, [], multiset{SignResponse(0, EscalateTx(0))}, seed)
  {
    hide Execution, Enabled, Step, Sends;
    ss, tx := Registers(c, before, req, raw, notified, seed);
    ss := Silent(c, ss, req, raw, true, tx, [], multiset{}, seed, B.SpawnWaiter);
    tx := B.Step(tx, B.SpawnWaiter);
    EscalationSent(tx);
    ss := Speaks(c, ss, req, raw, true, tx, SignResponse(0, EscalateTx(0)), seed, B.Respond);
    tx := B.Step(tx, B.Respond);
  }

  lemma EscalationSent(tx: B.Tx)
    requires tx.rid == 0 && tx.ctl.decision == B.DEscalate
    ensures Sends(0, tx, B.Respond) == multiset{SignResponse(0, EscalateTx(0))}
  {
  }

  lemma Registers(c: Codec, before: seq<State>, req: A.Request, raw: seq<Byte>, notified: B.Tx, seed: set<string>)
    returns (ss: seq<State>, tx: B.Tx)
    requires before != [] && Execution(c, seed, before)
    requires Last(before) == Lone(req, raw, true, notified, [], multiset{}, seed)
    requires notified.ctl.handler == B.Notified
    ensures ss != [] && Execution(c, seed, ss) && Last(ss) == Lone(req, raw, true, tx, [], multiset{}, seed)
    ensures tx.ctl == notified.ctl.(handler := B.Cached) && tx.ch.pending && tx.ch.decision == None
    ensures tx.rid == notified.rid && tx.req == notified.req && tx.entries == notified.entries
  {
    hide Execution, Enabled, Step;
    tx := notified;
    ss := Silent(c, before, req, raw, true, tx, [], multiset{}, seed, B.Register);
    tx := B.Step(tx, B.Register);
    ss := Silent(c, ss, req, raw, true, tx, [], multiset{}, seed, B.Cache);
    tx := B.Step(tx, B.Cache);
  }

  ghost predicate AwaitsPress(tx: B.Tx, req: A.Request) {
    && tx.ctl.waiter == B.Waiting && tx.ch.pending && tx.ch.decision == None && tx.ctl.signer == B.NoSigner
    && tx.req == req && tx.entries == []
  }

  /** Party A puts the transaction into its queue. */
  lemma Enqueued(c: Codec, ss: seq<State>, req: A.Request, raw: seq<Byte>, tx: B.Tx, seed: set<string>)
    returns (next: seq<State>)
    requires ss != [] && Execution(c, seed, ss)
    requires Last(ss) == Lone(req, raw, true, tx, [], multiset{SignResponse(0, EscalateTx(0))}, seed)
    ensures next != [] && Execution(c, seed, next)
    ensures Last(next) == Lone(req, raw, false, tx, [], multiset{}, seed, map[0 := raw])
  {
    hide Execution, FinalBytes;
    next := Extend(c, seed, ss, AResponse(0, EscalateTx(0)));
    assert map[0 := Call(req, raw, true)][0 := Call(req, raw, false)] == map[0 := Call(req, raw, false)];
  }

  /** The user approves, and the waiter takes the decision. */
  lemma UserPresses(c: Codec, before: seq<State>, req: A.Request, raw: seq<Byte>, waiting: B.Tx, seed: set<string>,
                    queue: map<TxId, seq<Byte>>)
    returns (ss: seq<State>, tx: B.Tx)
    requires before != [] && Execution(c, seed, before) && AwaitsPress(waiting, req)
    requires Last(before) == Lone(req, raw, false, waiting, [], multiset{}, seed, queue)
    ensures ss != [] && Execution(c, seed, ss) && Last(ss) == Lone(req, raw, false, tx, [], multiset{}, seed, queue)
    ensures tx.ctl == waiting.ctl.(waiter := B.Decided, verdict := B.VApprove) && tx.ch.approvedPress
    ensures tx.req == req && tx.entries == []
  {
    hide Execution, Enabled, Step;
    tx := waiting;
    ss := Silent(c, before, req, raw, false, tx, [], multiset{}, seed, B.Press(true), queue);
    tx := B.Step(tx, B.Press(true));
    ss := Silent(c, ss, req, raw, false, tx, [], multiset{}, seed, B.SendPress(true), queue);
    tx := B.Step(tx, B.SendPress(true));
    ss := Silent(c, ss, req, raw, false, tx, [], multiset{}, seed, B.TakeDecision, queue);
    tx := B.Step(tx, B.TakeDecision);
  }

  /** Party B tells Party A. */
  lemma UserApproves(c: Codec, before: seq<State>, req: A.Request, raw: seq<Byte>, waiting: B.Tx, seed: set<string>,
                     queue: map<TxId, seq<Byte>>)
    returns (ss: seq<State>, tx: B.Tx)
    requires before != [] && Execution(c, seed, before) && AwaitsPress(waiting, req)
    requires Last(before) == Lone(req, raw, false, waiting, [], multiset{}, seed, queue)
    ensures ss != [] && Execution(c, seed, ss)
    ensures tx.ctl.waiter == B.Pushed && tx.ctl.signer == B.NoSigner && tx.req == req && tx.entries == []
    ensures tx.ch.approvedPress
    ensures Last(ss) == Lone(req, raw, false, tx, [], multiset{SignApproved(0, req.path)}, seed, queue)
  {
    hide Execution, Enabled, Step;
    ss, tx := UserPresses(c, before, req, raw, waiting, seed, queue);
    ss := Silent(c, ss, req, raw, false, tx, [], multiset{}, seed, B.WriteVerdict, queue);
    tx := B.Step(tx, B.WriteVerdict);
    ss := Speaks(c, ss, req, raw, false, tx, SignApproved(0, req.path), seed, B.Push, queue);
    tx := B.Step(tx, B.Push);
  }

  /** Party A finds the transaction in its queue and starts its run. */
  lemma TakesUp(c: Codec, ss: seq<State>, req: A.Request, raw: seq<Byte>, tx: B.Tx, seed: set<string>)
    returns (next: seq<State>)
    requires ss != [] && Execution(c, seed, ss)
    requires Last(ss) == Lone(req, raw, false, tx, [], multiset{SignApproved(0, req.path)}, seed, map[0 := raw])
    ensures next != [] && Execution(c, seed, next)
    ensures Last(next) == Lone(req, raw, false, tx, [SignRun(0, req.path, raw, None, false)], multiset{}, seed,
                               map[0 := raw])
  {
    hide Execution, FinalBytes;
    next := Extend(c, seed, ss, AApproved(0, req.path, true));
  }

  /** Any request that is not rejected can be signed by both parties, with any blockhash, after a press. */
  lemma BothCanSignEscalated(c: Codec, env: A.Env, req: A.Request, raw: seq<Byte>, h: Option<seq<Byte>>, m: seq<Byte>)
    returns (ss: seq<State>)
    requires req.unsignedTx == c.encode(raw) && Sent(c, req.path, raw, h, m)
    requires A.AnalysisOf(env, req).action != A.Reject
    ensures ss != [] && Execution(c, env.whitelist, ss) && BothEntered(Last(ss), req, raw, m)
    ensures Last(ss).txs[0].ch.approvedPress
  {
    hide Execution, A.AnalysisOf, Enabled, Step, Sent;
    var seed, queue := env.whitelist, map[0 := raw];
    var tx: B.Tx;
    ss, tx := Escalates(c, env, req, raw);
    ss := Enqueued(c, ss, req, raw, tx, seed);
    ss, tx := UserApproves(c, ss, req, raw, tx, seed, queue);
    ss := TakesUp(c, ss, req, raw, tx, seed);
    ss, tx := Starts(c, ss, req, raw, tx, SignRun(0, req.path, raw, None, false), seed, queue);
    ss := Exchanges(c, ss, req, raw, tx, seed, h, m, queue);
    tx := B.Step(tx, B.Ready(m));
    assert Fed(tx, req, m);
    hide B.Step, B.Enabled, Fed;
    ss := Takes(c, ss, req, raw, tx, SignRun(0, req.path, raw, Some(m), false), seed, m, queue);
  }

  /** Party B's signer is started and registers for the bytes. */
  lemma Starts(c: Codec, before: seq<State>, req: A.Request, raw: seq<Byte>, pushed: B.Tx, run: SignRun,
               seed: set<string>, queue: map<TxId, seq<Byte>>)
    returns (ss: seq<State>, tx: B.Tx)
    requires before != [] && Execution(c, seed, before)
    requires Last(before) == Lone(req, raw, false, pushed, [run], multiset{}, seed, queue)
    requires pushed.ctl.waiter == B.Pushed && pushed.ctl.signer == B.NoSigner && pushed.req == req
    requires pushed.entries == []
    ensures ss != [] && Execution(c, seed, ss)
    ensures Last(ss) == Lone(req, raw, false, tx, [run], multiset{}, seed, queue)
    ensures tx.ctl.signer == B.Awaiting && tx.ch.signReady && tx.ch.ready == None && tx.req == req && tx.entries == []
    ensures tx.ch.approvedPress == pushed.ch.approvedPress
  {
    hide Execution, Enabled, Step;
    tx := pushed;
    ss := Silent(c, before, req, raw, false, tx, [run], multiset{}, seed, B.StartApproved(true), queue);
    tx := B.Step(tx, B.StartApproved(true));
    ss := Silent(c, ss, req, raw, false, tx, [run], multiset{}, seed, B.RegisterReady, queue);
    tx := B.Step(tx, B.RegisterReady);
  }
}
