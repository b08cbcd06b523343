/** Party B's handling of one transaction (internal/partyb/service.go), as the steps of its goroutines:
    the request handler, the waiter of an escalation, the signer, and the callbacks of the Telegram bot
    and of the transport. Every step between two synchronisation points is one event, so a run is any
    interleaving. Status writes are unguarded: UpdateStatus overwrites whatever is there. */
module PartyB {
  import opened Bytes
  import opened Options
  import opened Decimals
  import A = Analyzer

  datatype Status = Pending | Approved | Rejected | Signed

  datatype Decision = Undecided | DApprove | DReject | DEscalate

  datatype Verdict = NoVerdict | VApprove | VReject | VTimeout

  /** Where HandleSignRequest and escalate are. AutoApproved: status written, startSigning next.
      Notified: message sent, pending not yet registered. Replying: response not yet sent. */
  datatype Handler =
    Received | Analyzed | Rejecting | AutoMode | AutoApproved | Escalating | Notified | Registered | Cached
  | Replying | Done

  /** Where the goroutine of escalate is. Marked: approved status written, push to Party A next.
      Pushed: startSigning next. Leaving: deferred deletes next. */
  datatype Waiter = NoWaiter | Waiting | Decided | Marked | Pushed | Leaving | Unregistered | Finished

  /** Where the goroutine of startSigning is. Awaiting: channel registered in signReady.
      Returning: the deferred delete is next. Returned: the status write is next. */
  datatype Signer = NoSigner | Started | Awaiting | Got | KeyLoaded | InSign | Returning | Returned | Stored

  datatype Control = Control(
    handler: Handler, decision: Decision,
    waiter: Waiter, verdict: Verdict,
    signer: Signer)

  /** The store's row: the status, the signed bytes, and every status it has held. */
  datatype Row = Row(status: Status, signedTx: Option<seq<Byte>>, history: seq<Status>)

  /** The buffered channels and the callbacks that hold them but have not sent yet. */
  datatype Channels = Channels(
    pending: bool,                  // txID is a key of s.pending
    reqCached: bool,                // txID is a key of s.reqCache
    signReady: bool,                // txID is a key of s.signReady
    decision: Option<bool>,
    ready: Option<seq<Byte>>,
    presses: multiset<bool>,
    feeds: multiset<seq<Byte>>,
    approvedPress: bool)            // an approving press found the channel registered

  datatype Entry = Entry(path: string, msg: seq<Byte>)

  datatype Tx = Tx(
    rid: nat,                       // correlation ID of the request
    req: A.Request,
    env: Option<A.Env>,             // what the analyzer consulted
    analysis: Option<A.Analysis>,
    autoSeen: bool,                 // there was a bot, and its AutoMode() returned true
    ctl: Control,
    ch: Channels,
    row: Row,
    msg: Option<seq<Byte>>,         // what the signer took from its channel
    sig: Option<seq<Byte>>,         // what tss.Sign returned
    entries: seq<Entry>)            // every entry into tss.Sign

  datatype Event =
    // HandleSignRequest, escalate
    | Analyze(env: A.Env)
    | Decide(autoMode: bool, bot: bool)
    | MarkRejected | MarkAutoApproved | StartAuto(configured: bool)
    | Notify(bot: bool, ok: bool) | Register | Cache | SpawnWaiter | Respond
    // the goroutine of escalate
    | TakeDecision | TimeOut | WriteVerdict | Push | StartApproved(configured: bool) | Unregister | Uncache
    // the goroutine of startSigning
    | RegisterReady | TakeBytes | BytesTimeOut | LoadKey(found: bool) | EnterSign
    | FinishSign(sig: Option<seq<Byte>>) | DropReady | Store
    // onTelegramDecision, HandleSignReady: look the channel up, later send on it
    | Press(approved: bool) | SendPress(approved: bool)
    | Ready(msg: seq<Byte>) | SendReady(msg: seq<Byte>)

  function NewTx(rid: nat, req: A.Request): Tx {
    Tx(rid, req, None, None, false,
       Control(Received, Undecided, NoWaiter, NoVerdict, NoSigner),
       Channels(false, false, false, None, None, multiset{}, multiset{}, false),
       Row(Pending, None, [Pending]), None, None, [])
  }

  /** The SQL update: no condition on the previous status, and signed_tx is overwritten as well. */
  function UpdateStatus(row: Row, status: Status, signedTx: Option<seq<Byte>>): Row {
    Row(status, signedTx, row.history + [status])
  }

  function Go(tx: Tx, handler: Handler): Tx {
    tx.(ctl := tx.ctl.(handler := handler))
  }

  function Answer(tx: Tx, decision: Decision): Tx {
    tx.(ctl := tx.ctl.(handler := Replying, decision := decision))
  }

  function GoWaiter(tx: Tx, waiter: Waiter): Tx {
    tx.(ctl := tx.ctl.(waiter := waiter))
  }

  function GoSigner(tx: Tx, signer: Signer): Tx {
    tx.(ctl := tx.ctl.(signer := signer))
  }

  function StartSigning(tx: Tx, configured: bool): Tx {
    if configured then GoSigner(tx, Started) else tx
  }

  predicate Enabled(tx: Tx, e: Event) {
    match e
    case Analyze(_) => tx.ctl.handler == Received
    case Decide(_, _) => tx.ctl.handler == Analyzed && tx.analysis.Some?
    case MarkRejected => tx.ctl.handler == Rejecting
    case MarkAutoApproved => tx.ctl.handler == AutoMode
    case StartAuto(_) => tx.ctl.handler == AutoApproved
    case Notify(_, _) => tx.ctl.handler == Escalating
    case Register => tx.ctl.handler == Notified
    case Cache => tx.ctl.handler == Registered
    case SpawnWaiter => tx.ctl.handler == Cached
    case Respond => tx.ctl.handler == Replying
    case TakeDecision => tx.ctl.waiter == Waiting && tx.ch.decision.Some?
    case TimeOut => tx.ctl.waiter == Waiting
    case WriteVerdict => tx.ctl.waiter == Decided
    case Push => tx.ctl.waiter == Marked
    case StartApproved(_) => tx.ctl.waiter == Pushed
    case Unregister => tx.ctl.waiter == Leaving
    case Uncache => tx.ctl.waiter == Unregistered
    case RegisterReady => tx.ctl.signer == Started
    case TakeBytes => tx.ctl.signer == Awaiting && tx.ch.ready.Some?
    case BytesTimeOut => tx.ctl.signer == Awaiting
    case LoadKey(_) => tx.ctl.signer == Got
    case EnterSign => tx.ctl.signer == KeyLoaded && tx.msg.Some?
    case FinishSign(_) => tx.ctl.signer == InSign
    case DropReady => tx.ctl.signer == Returning
    case Store => tx.ctl.signer == Returned
    case Press(_) => tx.ch.pending
    case SendPress(b) => b in tx.ch.presses && tx.ch.decision == None
    case Ready(_) => tx.ch.signReady
    case SendReady(m) => m in tx.ch.feeds && tx.ch.ready == None
  }

  function HandlerStep(tx: Tx, e: Event): (next: Tx)
    requires Enabled(tx, e)
    ensures next.req == tx.req && next.rid == tx.rid
    ensures next.msg == tx.msg && next.sig == tx.sig && next.entries == tx.entries
    ensures next.ctl.signer == tx.ctl.signer || (next.ctl.signer == Started && tx.ctl.handler == AutoApproved)
  {
    match e
    case Analyze(env) => Go(tx, Analyzed).(env := Some(env), analysis := Some(A.AnalysisOf(env, tx.req)))
    case Decide(autoMode, bot) =>
      var seen := tx.(autoSeen := bot && autoMode);
      if tx.analysis.value.action == A.Reject then Go(seen, Rejecting)
      else if bot && autoMode && tx.analysis.value.whitelisted then Go(seen, AutoMode)
      else Go(seen, Escalating)
    case MarkRejected => Answer(tx, DReject).(row := UpdateStatus(tx.row, Rejected, None))
    case MarkAutoApproved => Go(tx, AutoApproved).(row := UpdateStatus(tx.row, Approved, None))
    case StartAuto(configured) => Answer(StartSigning(tx, configured), DApprove)
    case Notify(bot, ok) =>
      if bot && ok then Go(tx, Notified)
      else Answer(tx, DReject).(row := UpdateStatus(tx.row, Rejected, None))
    case Register => Go(tx, Registered).(ch := tx.ch.(pending := true, decision := None))
    case Cache => Go(tx, Cached).(ch := tx.ch.(reqCached := true))
    case SpawnWaiter => Answer(GoWaiter(tx, Waiting), DEscalate)
    case Respond => Go(tx, Done)
    case _ => tx
  }

  function WaiterStep(tx: Tx, e: Event): (next: Tx)
    requires Enabled(tx, e)
    ensures next == tx.(ctl := next.ctl, ch := next.ch, row := next.row)
    ensures next.ctl.handler == tx.ctl.handler && next.ctl.decision == tx.ctl.decision
    ensures next.ctl.signer == tx.ctl.signer || (next.ctl.signer == Started && tx.ctl.waiter == Pushed)
  {
    match e
    case TakeDecision =>
      tx.(ctl := tx.ctl.(waiter := Decided, verdict := if tx.ch.decision.value then VApprove else VReject),
          ch := tx.ch.(decision := None))
    case TimeOut => tx.(ctl := tx.ctl.(waiter := Decided, verdict := VTimeout))
    case WriteVerdict =>
      if tx.ctl.verdict == VApprove then GoWaiter(tx, Marked).(row := UpdateStatus(tx.row, Approved, None))
      else GoWaiter(tx, Leaving).(row := UpdateStatus(tx.row, Rejected, None))
    case Push => GoWaiter(tx, Pushed)
    case StartApproved(configured) => GoWaiter(StartSigning(tx, configured), Leaving)
    case Unregister => GoWaiter(tx, Unregistered).(ch := tx.ch.(pending := false))
    case Uncache => GoWaiter(tx, Finished).(ch := tx.ch.(reqCached := false))
    case _ => tx
  }

  function SignerStep(tx: Tx, e: Event): (next: Tx)
    requires Enabled(tx, e)
    ensures next == tx.(ctl := tx.ctl.(signer := next.ctl.signer), ch := next.ch, row := next.row,
                       msg := next.msg, sig := next.sig, entries := next.entries)
  {
    match e
    case RegisterReady => GoSigner(tx, Awaiting).(ch := tx.ch.(signReady := true, ready := None))
    case TakeBytes => GoSigner(tx, Got).(msg := tx.ch.ready, ch := tx.ch.(ready := None))
    case BytesTimeOut => GoSigner(tx, Returning)
    case LoadKey(found) => GoSigner(tx, if found then KeyLoaded else Returning)
    case EnterSign => GoSigner(tx, InSign).(entries := tx.entries + [Entry(tx.req.path, tx.msg.value)])
    case FinishSign(sig) => GoSigner(tx, Returning).(sig := sig)
    case DropReady => GoSigner(tx, Returned).(ch := tx.ch.(signReady := false))
    case Store =>
      GoSigner(tx, Stored).(row := if tx.sig.Some? then UpdateStatus(tx.row, Signed, tx.sig)
                                   else UpdateStatus(tx.row, Rejected, None))
    case _ => tx
  }

  function CallbackStep(tx: Tx, e: Event): (next: Tx)
    requires Enabled(tx, e)
    ensures next == tx.(ch := next.ch)
  {
    match e
    case Press(b) =>
      tx.(ch := tx.ch.(presses := tx.ch.presses + multiset{b}, approvedPress := tx.ch.approvedPress || b))
    case SendPress(b) => tx.(ch := tx.ch.(presses := tx.ch.presses - multiset{b}, decision := Some(b)))
    case Ready(m) => tx.(ch := tx.ch.(feeds := tx.ch.feeds + multiset{m}))
    case SendReady(m) => tx.(ch := tx.ch.(feeds := tx.ch.feeds - multiset{m}, ready := Some(m)))
    case _ => tx
  }

  predicate ByHandler(e: Event) {
    e.Analyze? || e.Decide? || e.MarkRejected? || e.MarkAutoApproved? || e.StartAuto? || e.Notify? || e.Register?
    || e.Cache? || e.SpawnWaiter? || e.Respond?
  }

  predicate ByWaiter(e: Event) {
    e.TakeDecision? || e.TimeOut? || e.WriteVerdict? || e.Push? || e.StartApproved? || e.Unregister? || e.Uncache?
  }

  predicate ByCallback(e: Event) {
    e.Press? || e.SendPress? || e.Ready? || e.SendReady?
  }

  function Step(tx: Tx, e: Event): Tx
    requires Enabled(tx, e)
  {
    if ByHandler(e) then HandlerStep(tx, e)
    else if ByWaiter(e) then WaiterStep(tx, e)
    else if ByCallback(e) then CallbackStep(tx, e)
    else SignerStep(tx, e)
  }

  // ----- the inductive invariant -----

  predicate Answered(c: Control) {
    c.handler == Replying || c.handler == Done
  }

  /** The waiter has made its status write for the verdict and, if approving, called startSigning. */
  predicate WaiterOver(c: Control) {
    c.waiter == Leaving || c.waiter == Unregistered || c.waiter == Finished
  }

  /** startSigning has been called. */
  predicate SignerAllowed(c: Control) {
    c.decision == DApprove || (c.verdict == VApprove && WaiterOver(c))
  }

  predicate AutoBranch(c: Control) {
    c.handler == AutoMode || c.handler == AutoApproved || c.decision == DApprove
  }

  /** One waiter, one signer, and who may have started them. */
  predicate ControlInv(c: Control) {
    && (c.decision == Undecided <==> !Answered(c))
    && (c.waiter == NoWaiter <==> c.decision != DEscalate)
    && (c.verdict == NoVerdict <==> c.waiter == NoWaiter || c.waiter == Waiting)
    && (c.waiter == Marked || c.waiter == Pushed ==> c.verdict == VApprove)
    && (c.signer != NoSigner ==> SignerAllowed(c))
  }

  /** The branches taken when the analyzer did not reject. */
  predicate PastReview(c: Control) {
    c.handler != Received && c.handler != Analyzed && c.handler != Rejecting && c.decision != DReject
  }

  /** The analysis that the branch taken rests on. */
  predicate AnalysisInv(tx: Tx) {
    && (tx.ctl.handler == Received <==> tx.analysis == None)
    && (PastReview(tx.ctl) ==> tx.analysis.Some? && tx.analysis.value.action != A.Reject)
    && (AutoBranch(tx.ctl) ==> tx.autoSeen && tx.analysis.Some? && tx.analysis.value.whitelisted)
  }

  /** The stored status, read off the positions of the goroutines. */
  function ExpectedStatus(c: Control, signed: bool): Status {
    if c.signer == Stored then (if signed then Signed else Rejected)
    else if c.decision == DReject || (WaiterOver(c) && c.verdict != VApprove) then Rejected
    else if c.handler == AutoApproved || c.decision == DApprove || c.waiter == Marked || c.waiter == Pushed
            || WaiterOver(c) then Approved
    else Pending
  }

  predicate StatusInv(tx: Tx) {
    && tx.row.status == ExpectedStatus(tx.ctl, tx.sig.Some?)
    && tx.row.signedTx == if tx.ctl.signer == Stored then tx.sig else None
  }

  /** An approval reaches the waiter only through a press that found the channel registered. */
  predicate PressInv(tx: Tx) {
    && (true in tx.ch.presses || tx.ch.decision == Some(true) ==> tx.ch.approvedPress)
    && (tx.ctl.verdict == VApprove ==> tx.ch.approvedPress)
  }

  predicate BeforeEntry(s: Signer) {
    s == NoSigner || s == Started || s == Awaiting || s == Got || s == KeyLoaded
  }

  predicate EntryInv(tx: Tx) {
    && (tx.ctl.signer == Got || tx.ctl.signer == KeyLoaded || tx.ctl.signer == InSign ==> tx.msg.Some?)
    && (BeforeEntry(tx.ctl.signer) ==> tx.entries == [])
    && (tx.ctl.signer == InSign || tx.sig.Some? ==> tx.entries != [])
    && (tx.entries == [] || (tx.msg.Some? && tx.entries == [Entry(tx.req.path, tx.msg.value)]))
  }

  predicate Allowed(from: Status, to: Status) {
    (from == Pending && (to == Approved || to == Rejected)) || (from == Approved && (to == Signed || to == Rejected))
  }

  /** A history that starts pending and takes only allowed transitions. */
  ghost predicate ValidHistory(h: seq<Status>) {
    && h != [] && h[0] == Pending
    && forall i :: 0 <= i < |h| - 1 ==> Allowed(h[i], h[i + 1])
  }

  ghost predicate HistoryInv(row: Row) {
    ValidHistory(row.history) && row.status == row.history[|row.history| - 1]
  }

  /** The analysis on record is the analyzer's, of what it consulted. */
  ghost predicate GenuineInv(tx: Tx) {
    && (tx.env.Some? <==> tx.analysis.Some?)
    && (tx.env.Some? ==> tx.analysis.value == A.AnalysisOf(tx.env.value, tx.req))
  }

  ghost predicate TxInv(tx: Tx) {
    && GenuineInv(tx) && ControlInv(tx.ctl) && AnalysisInv(tx) && StatusInv(tx)
    && PressInv(tx) && EntryInv(tx) && HistoryInv(tx.row)
  }

  /** A step either leaves the row alone, or moves the status along an allowed transition and records it. */
  predicate RowMoves(row: Row, next: Row) {
    next == row || (Allowed(row.status, next.status) && next.history == row.history + [next.status])
  }

  lemma NewTxInv(rid: nat, req: A.Request)
    ensures TxInv(NewTx(rid, req))
  {
  }

  lemma HandlerKeepsControl(tx: Tx, e: Event)
    requires ControlInv(tx.ctl) && Enabled(tx, e)
    ensures ControlInv(HandlerStep(tx, e).ctl)
  {
    hide UpdateStatus;
  }

  lemma WaiterKeepsControl(tx: Tx, e: Event)
    requires ControlInv(tx.ctl) && Enabled(tx, e)
    ensures ControlInv(WaiterStep(tx, e).ctl)
  {
    hide UpdateStatus;
  }

  lemma StepKeepsControl(tx: Tx, e: Event)
    requires ControlInv(tx.ctl) && Enabled(tx, e)
    ensures ControlInv(Step(tx, e).ctl)
  {
    hide HandlerStep, WaiterStep, CallbackStep;
    HandlerKeepsControl(tx, e);
    WaiterKeepsControl(tx, e);
  }

  lemma HandlerKeepsAnalysis(tx: Tx, e: Event)
    requires ControlInv(tx.ctl) && AnalysisInv(tx) && Enabled(tx, e)
    ensures AnalysisInv(HandlerStep(tx, e))
  {
    hide UpdateStatus;
  }

  lemma StepKeepsAnalysis(tx: Tx, e: Event)
    requires ControlInv(tx.ctl) && AnalysisInv(tx) && Enabled(tx, e)
    ensures AnalysisInv(Step(tx, e))
  {
    hide HandlerStep, WaiterStep, SignerStep, CallbackStep;
    HandlerKeepsAnalysis(tx, e);
  }

  lemma HandlerKeepsStatus(tx: Tx, e: Event)
    requires ControlInv(tx.ctl) && StatusInv(tx) && Enabled(tx, e)
    ensures StatusInv(HandlerStep(tx, e)) && RowMoves(tx.row, HandlerStep(tx, e).row)
  {
  }

  lemma WaiterKeepsStatus(tx: Tx, e: Event)
    requires ControlInv(tx.ctl) && StatusInv(tx) && Enabled(tx, e)
    ensures StatusInv(WaiterStep(tx, e)) && RowMoves(tx.row, WaiterStep(tx, e).row)
  {
  }

  lemma SignerKeepsStatus(tx: Tx, e: Event)
    requires ControlInv(tx.ctl) && StatusInv(tx) && EntryInv(tx) && Enabled(tx, e)
    ensures StatusInv(SignerStep(tx, e)) && RowMoves(tx.row, SignerStep(tx, e).row)
  {
  }

  lemma StepKeepsStatus(tx: Tx, e: Event)
    requires ControlInv(tx.ctl) && StatusInv(tx) && EntryInv(tx) && Enabled(tx, e)
    ensures StatusInv(Step(tx, e)) && RowMoves(tx.row, Step(tx, e).row)
  {
    hide HandlerStep, WaiterStep, SignerStep, CallbackStep, Enabled, Allowed;
    SignerKeepsStatus(tx, e);
    HandlerKeepsStatus(tx, e);
    WaiterKeepsStatus(tx, e);
  }

  lemma CallbackKeepsPress(tx: Tx, e: Event)
    requires PressInv(tx) && Enabled(tx, e)
    ensures PressInv(CallbackStep(tx, e))
  {
  }

  lemma WaiterKeepsPress(tx: Tx, e: Event)
    requires PressInv(tx) && Enabled(tx, e)
    ensures PressInv(WaiterStep(tx, e))
  {
    hide UpdateStatus;
  }

  lemma StepKeepsPress(tx: Tx, e: Event)
    requires PressInv(tx) && Enabled(tx, e)
    ensures PressInv(Step(tx, e))
  {
    hide CallbackStep, WaiterStep, UpdateStatus;
    CallbackKeepsPress(tx, e);
    WaiterKeepsPress(tx, e);
  }

  lemma SignerKeepsEntry(tx: Tx, e: Event)
    requires EntryInv(tx) && Enabled(tx, e)
    ensures EntryInv(SignerStep(tx, e))
  {
    hide UpdateStatus;
    if e.EnterSign? {
      assert [] + [Entry(tx.req.path, tx.msg.value)] == [Entry(tx.req.path, tx.msg.value)];
    }
  }

  lemma StepKeepsEntry(tx: Tx, e: Event)
    requires ControlInv(tx.ctl) && EntryInv(tx) && Enabled(tx, e)
    ensures EntryInv(Step(tx, e))
  {
    hide HandlerStep, WaiterStep, SignerStep, CallbackStep;
    SignerKeepsEntry(tx, e);
  }

  lemma HandlerKeepsGenuine(tx: Tx, e: Event)
    requires GenuineInv(tx) && Enabled(tx, e)
    ensures GenuineInv(HandlerStep(tx, e))
  {
    hide A.AnalysisOf, UpdateStatus;
  }

  lemma StepKeepsGenuine(tx: Tx, e: Event)
    requires GenuineInv(tx) && Enabled(tx, e)
    ensures GenuineInv(Step(tx, e)) && Step(tx, e).req == tx.req && Step(tx, e).rid == tx.rid
  {
    HandlerKeepsGenuine(tx, e);
    hide A.AnalysisOf, HandlerStep, WaiterStep, SignerStep, CallbackStep, Enabled;
  }

  lemma HistoryGrows(row: Row, next: Row)
    requires HistoryInv(row) && RowMoves(row, next)
    ensures HistoryInv(next)
  {
  }

  /** Every step of every goroutine keeps the invariant. */
  lemma StepKeepsInv(tx: Tx, e: Event)
    requires TxInv(tx) && Enabled(tx, e)
    ensures TxInv(Step(tx, e)) && RowMoves(tx.row, Step(tx, e).row)
  {
    hide GenuineInv, ControlInv, AnalysisInv, StatusInv, HistoryInv, PressInv, EntryInv, RowMoves, Step, Enabled;
    StepKeepsGenuine(tx, e);
    StepKeepsControl(tx, e);
    StepKeepsAnalysis(tx, e);
    StepKeepsStatus(tx, e);
    StepKeepsPress(tx, e);
    StepKeepsEntry(tx, e);
    HistoryGrows(tx.row, Step(tx, e).row);
  }

  // ----- whole runs -----

  /** The states of one transaction under some interleaving. */
  ghost predicate Run(txs: seq<Tx>) {
    && txs != [] && (exists rid, req :: txs[0] == NewTx(rid, req))
    && forall i :: 0 <= i < |txs| - 1 ==> Moves(txs[i], txs[i + 1])
  }

  ghost predicate Moves(tx: Tx, next: Tx) {
    exists e :: Enabled(tx, e) && next == Step(tx, e)
  }

  lemma {:induction false} RunKeepsInv(txs: seq<Tx>, i: nat)
    requires Run(txs) && i < |txs|
    ensures TxInv(txs[i])
  {
    hide TxInv, Step, Enabled, NewTx;
    if i == 0 {
      var rid, req :| txs[0] == NewTx(rid, req);
      NewTxInv(rid, req);
    } else {
      RunKeepsInv(txs, i - 1);
      assert Moves(txs[i - 1], txs[i - 1 + 1]);
      var e :| Enabled(txs[i - 1], e) && txs[i] == Step(txs[i - 1], e);
      StepKeepsInv(txs[i - 1], e);
    }
  }

  /** Auto mode was on, and what the analyzer consulted showed no differing bytes and a listed recipient: one
      in the bytes, if they name any, and a claimed one otherwise. */
  predicate AutoAuthorised(tx: Tx) {
    && tx.autoSeen && tx.env.Some? && !A.Tampered(tx.env.value, tx.req)
    && if A.BytesName(tx.env.value, tx.req) then A.BytesNameListed(tx.env.value, tx.req)
       else A.AnyListed(tx.env.value, tx.req.to)
  }

  /** The waiter took an approval, before its timeout, that somebody pressed while the channel was registered. */
  predicate UserAuthorised(tx: Tx) {
    tx.ctl.decision == DEscalate && tx.ctl.verdict == VApprove && tx.ch.approvedPress
  }

  /** In every run, tss.Sign is entered at most once, and only with authority and no rejection. */
  lemma AuthorisedAtMostOnce(txs: seq<Tx>, i: nat)
    requires Run(txs) && i < |txs|
    ensures |txs[i].entries| <= 1
    ensures txs[i].entries != [] ==>
              && txs[i].analysis.Some? && txs[i].analysis.value.action != A.Reject
              && (AutoAuthorised(txs[i]) || UserAuthorised(txs[i]))
  {
    hide A.AnalysisOf, A.Tampered, A.AnyListed, A.BytesName, A.BytesNameListed, Run;
    RunKeepsInv(txs, i);
    var tx := txs[i];
    if tx.entries != [] && tx.ctl.decision == DApprove {
      A.WhitelistedMeans(tx.env.value, tx.req);
      A.RestsOnBytesIff(tx.env.value, tx.req);
    }
  }

  /** The status history is one of five paths, and signed bytes are stored exactly when it ends in signed. */
  lemma HistoryIsAPath(txs: seq<Tx>, i: nat)
    requires Run(txs) && i < |txs|
    ensures txs[i].row.history in
              [[Pending], [Pending, Rejected], [Pending, Approved],
               [Pending, Approved, Signed], [Pending, Approved, Rejected]]
    ensures txs[i].row.status == txs[i].row.history[|txs[i].row.history| - 1]
    ensures txs[i].row.signedTx.Some? <==> txs[i].row.status == Signed
  {
    hide Run;
    RunKeepsInv(txs, i);
    HistoryShapes(txs[i].row.history);
  }

  lemma HistoryShapes(h: seq<Status>)
    requires ValidHistory(h)
    ensures h in [[Pending], [Pending, Rejected], [Pending, Approved],
                  [Pending, Approved, Signed], [Pending, Approved, Rejected]]
  {
    if |h| >= 2 {
      assert Allowed(h[0], h[0 + 1]);
      if |h| >= 3 {
        assert Allowed(h[1], h[1 + 1]);
        assert |h| > 3 ==> Allowed(h[2], h[2 + 1]);
        assert h == [h[0], h[1], h[2]];
      } else {
        assert h == [h[0], h[1]];
      }
    } else {
      assert h == [h[0]];
    }
  }

  /** What is settled stays settled. */
  ghost predicate Settles(tx: Tx, next: Tx) {
    && (tx.row.status == Signed || tx.row.status == Rejected ==> next.row == tx.row)
    && (tx.ctl.decision != Undecided ==> next.ctl.decision == tx.ctl.decision)
    && (tx.ctl.verdict != NoVerdict ==> next.ctl.verdict == tx.ctl.verdict)
    && (tx.entries != [] ==> next.entries == tx.entries)
  }

  lemma StepSettles(tx: Tx, e: Event)
    requires TxInv(tx) && Enabled(tx, e)
    ensures Settles(tx, Step(tx, e))
  {
    StepKeepsStatus(tx, e);
    StepKeepsDecision(tx, e);
    StepKeepsEntries(tx, e);
    hide Step, Enabled, TxInv;
  }

  lemma StepKeepsDecision(tx: Tx, e: Event)
    requires ControlInv(tx.ctl) && Enabled(tx, e)
    ensures tx.ctl.decision != Undecided ==> Step(tx, e).ctl.decision == tx.ctl.decision
    ensures tx.ctl.verdict != NoVerdict ==> Step(tx, e).ctl.verdict == tx.ctl.verdict
  {
    hide UpdateStatus;
  }

  lemma StepKeepsEntries(tx: Tx, e: Event)
    requires EntryInv(tx) && Enabled(tx, e)
    ensures tx.entries != [] ==> Step(tx, e).entries == tx.entries
  {
    hide UpdateStatus;
  }

  /** However long the run goes on, and whatever is pressed: a signed or rejected row, an answer, a
      verdict and an entry into tss.Sign never change again. */
  lemma {:induction false} SettledForGood(txs: seq<Tx>, i: nat, j: nat)
    requires Run(txs) && i <= j < |txs|
    ensures Settles(txs[i], txs[j])
  {
    hide TxInv, Step, Enabled, NewTx;
    if i < j {
      SettledForGood(txs, i, j - 1);
      RunKeepsInv(txs, j - 1);
      assert Moves(txs[j - 1], txs[j - 1 + 1]);
      var e :| Enabled(txs[j - 1], e) && txs[j] == Step(txs[j - 1], e);
      StepSettles(txs[j - 1], e);
    }
  }

  // ----- failures -----

  /** The rejecting branch, taken for good: nobody waits and nobody signs. */
  predicate Declined(tx: Tx) {
    tx.ctl.decision == DReject && tx.row.status == Rejected && tx.entries == []
  }

  /** The signer has given up before tss.Sign. */
  predicate Aborted(tx: Tx) {
    && (tx.ctl.signer == Returning || tx.ctl.signer == Returned || tx.ctl.signer == Stored)
    && tx.entries == [] && tx.sig == None
  }

  /** The analyzer's rejection, a notification that cannot be sent, bytes that do not come, a key that is not
      found: where the step leads. */
  lemma FailureTakes(tx: Tx, e: Event)
    requires TxInv(tx) && Enabled(tx, e)
    ensures e.MarkRejected? || (e.Notify? && !(e.bot && e.ok)) ==> Declined(Step(tx, e))
    ensures e.BytesTimeOut? || (e.LoadKey? && !e.found) ==> Aborted(Step(tx, e))
  {
  }

  lemma DeclinedStays(tx: Tx, e: Event)
    requires TxInv(tx) && Enabled(tx, e) && Declined(tx)
    ensures Declined(Step(tx, e))
  {
    StepSettles(tx, e);
    assert tx.ctl.signer == NoSigner;
    hide A.AnalysisOf, HistoryInv, GenuineInv, PressInv, AnalysisInv, StatusInv, HandlerStep, WaiterStep, CallbackStep;
  }

  lemma AbortedStays(tx: Tx, e: Event)
    requires TxInv(tx) && Enabled(tx, e) && Aborted(tx)
    ensures Aborted(Step(tx, e))
  {
    hide TxInv, HandlerStep, WaiterStep, SignerStep, CallbackStep, Enabled;
    NobodyStartsAgain(tx);
    SignerStaysAborted(tx, e);
  }

  lemma NobodyStartsAgain(tx: Tx)
    requires TxInv(tx) && tx.ctl.signer != NoSigner
    ensures tx.ctl.handler != AutoApproved && tx.ctl.waiter != Pushed
  {
    hide GenuineInv, AnalysisInv, StatusInv, PressInv, EntryInv, HistoryInv;
  }

  lemma SignerStaysAborted(tx: Tx, e: Event)
    requires Enabled(tx, e) && Aborted(tx)
    ensures Aborted(SignerStep(tx, e))
  {
    hide UpdateStatus;
  }

  lemma {:induction false} FailureLasts(txs: seq<Tx>, i: nat, j: nat)
    requires Run(txs) && i <= j < |txs|
    ensures Declined(txs[i]) ==> Declined(txs[j])
    ensures Aborted(txs[i]) ==> Aborted(txs[j])
  {
    hide TxInv, Step, Enabled, NewTx, Declined, Aborted;
    if i < j {
      FailureLasts(txs, i, j - 1);
      RunKeepsInv(txs, j - 1);
      assert Moves(txs[j - 1], txs[j - 1 + 1]);
      var e :| Enabled(txs[j - 1], e) && txs[j] == Step(txs[j - 1], e);
      if Declined(txs[j - 1]) {
        DeclinedStays(txs[j - 1], e);
      }
      if Aborted(txs[j - 1]) {
        AbortedStays(txs[j - 1], e);
      }
    }
  }

  /** In every run: once the request is rejected or the user cannot be notified, it is answered and stored as
      rejected and never signed; once the bytes do not come or the key is not found, tss.Sign is never entered and
      nothing is stored as signed. */
  lemma FailureIsFinal(txs: seq<Tx>, i: nat, j: nat, e: Event)
    requires Run(txs) && i < j < |txs| && Enabled(txs[i], e) && txs[i + 1] == Step(txs[i], e)
    ensures e.MarkRejected? || (e.Notify? && !(e.bot && e.ok)) ==>
              txs[j].ctl.decision == DReject && txs[j].row.status == Rejected && txs[j].entries == []
    ensures e.BytesTimeOut? || (e.LoadKey? && !e.found) ==>
              txs[j].entries == [] && txs[j].row.status != Signed
  {
    hide Run, TxInv, Step, Enabled;
    RunKeepsInv(txs, i);
    FailureTakes(txs[i], e);
    FailureLasts(txs, i + 1, j);
    RunKeepsInv(txs, j);
    AbortedIsNotSigned(txs[j]);
  }

  lemma AbortedIsNotSigned(tx: Tx)
    requires TxInv(tx)
    ensures Aborted(tx) ==> tx.row.status != Signed
  {
    hide A.AnalysisOf, HistoryInv, GenuineInv;
  }

  /** The waiter, or the handler that is about to start it, still holds the decision channel. */
  predicate HoldsDecision(c: Control) {
    c.handler == Registered || c.handler == Cached || c.waiter == Waiting || c.waiter == Decided
    || c.waiter == Marked || c.waiter == Pushed || c.waiter == Leaving
  }

  /** The signer holds the channel for its bytes. */
  predicate HoldsReady(c: Control) {
    c.signer == Awaiting || c.signer == Got || c.signer == KeyLoaded || c.signer == InSign || c.signer == Returning
  }

  /** The tables hold a transaction exactly as long as somebody needs it. */
  predicate InTables(tx: Tx) {
    && (tx.ch.pending <==> HoldsDecision(tx.ctl))
    && (tx.ch.reqCached <==> (HoldsDecision(tx.ctl) && tx.ctl.handler != Registered) || tx.ctl.waiter == Unregistered)
    && (tx.ch.signReady <==> HoldsReady(tx.ctl))
  }

  lemma StepKeepsTables(tx: Tx, e: Event)
    requires TxInv(tx) && Enabled(tx, e) && InTables(tx)
    ensures InTables(Step(tx, e))
  {
    HandlerKeepsTables(tx, e);
    WaiterKeepsTables(tx, e);
    SignerKeepsTables(tx, e);
    CallbackKeepsTables(tx, e);
    hide TxInv, InTables, Enabled, HandlerStep, WaiterStep, SignerStep, CallbackStep;
  }

  lemma HandlerKeepsTables(tx: Tx, e: Event)
    requires ControlInv(tx.ctl) && Enabled(tx, e) && InTables(tx)
    ensures InTables(HandlerStep(tx, e))
  {
    HandlerTouches(tx, e);
    HandlerMoves(tx, e);
    assert tx.ctl.handler == AutoApproved ==> tx.ctl.signer == NoSigner;
    assert tx.ctl.waiter == NoWaiter || Answered(tx.ctl);
    hide HandlerStep, ControlInv;
  }

  /** What a step of the handler does to the tables. */
  lemma HandlerTouches(tx: Tx, e: Event)
    requires Enabled(tx, e)
    ensures var next := HandlerStep(tx, e);
            && next.ch.pending == (tx.ch.pending || e.Register?) && next.ch.signReady == tx.ch.signReady
            && next.ch.reqCached == (tx.ch.reqCached || e.Cache?)
  {
    hide A.AnalysisOf, UpdateStatus, Enabled;
  }

  lemma HandlerMoves(tx: Tx, e: Event)
    requires Enabled(tx, e)
    ensures var next := HandlerStep(tx, e);
            && next.ctl.waiter == (if e.SpawnWaiter? then Waiting else tx.ctl.waiter)
            && (ByHandler(e) ==> (next.ctl.handler == Registered <==> e.Register?))
            && (ByHandler(e) ==> (next.ctl.handler == Cached <==> e.Cache?))
            && (!ByHandler(e) ==> next == tx)
  {
    hide A.AnalysisOf, UpdateStatus, Enabled;
  }

  lemma WaiterKeepsTables(tx: Tx, e: Event)
    requires ControlInv(tx.ctl) && Enabled(tx, e) && InTables(tx)
    ensures InTables(WaiterStep(tx, e))
  {
    assert tx.ctl.waiter == NoWaiter || Answered(tx.ctl);
    assert tx.ctl.waiter == Pushed ==> tx.ctl.signer == NoSigner;
    hide ControlInv, UpdateStatus;
  }

  lemma SignerKeepsTables(tx: Tx, e: Event)
    requires Enabled(tx, e) && InTables(tx)
    ensures InTables(SignerStep(tx, e))
  {
    hide UpdateStatus;
  }

  lemma CallbackKeepsTables(tx: Tx, e: Event)
    requires Enabled(tx, e) && InTables(tx)
    ensures InTables(CallbackStep(tx, e))
  {
  }

  lemma {:induction false} RunKeepsTables(txs: seq<Tx>, i: nat)
    requires Run(txs) && i < |txs|
    ensures InTables(txs[i])
  {
    hide TxInv, Step, Enabled;
    if i > 0 {
      hide InTables;
      RunKeepsTables(txs, i - 1);
      RunKeepsInv(txs, i - 1);
      assert Moves(txs[i - 1], txs[i - 1 + 1]);
      var e :| Enabled(txs[i - 1], e) && txs[i] == Step(txs[i - 1], e);
      StepKeepsTables(txs[i - 1], e);
    }
  }

  /** In every run, presses find the channel exactly while the waiter needs them, "Approve & Whitelist" finds the
      request from before the waiter starts until it has left, and bytes find the signer's channel exactly while
      it holds it. */
  lemma CallbacksFindExactly(txs: seq<Tx>, i: nat, b: bool, m: seq<Byte>)
    requires Run(txs) && i < |txs|
    ensures Enabled(txs[i], Press(b)) <==> HoldsDecision(txs[i].ctl)
    ensures txs[i].ch.reqCached <==>
              (HoldsDecision(txs[i].ctl) && txs[i].ctl.handler != Registered) || txs[i].ctl.waiter == Unregistered
    ensures Enabled(txs[i], Ready(m)) <==> HoldsReady(txs[i].ctl)
  {
    hide Run;
    RunKeepsTables(txs, i);
  }

  /** The record of an approving press is the record of one. */
  lemma {:induction false} ApprovedPressIs(txs: seq<Tx>, j: nat)
    requires Run(txs) && j < |txs|
    ensures txs[j].ch.approvedPress <==>
              exists i :: 0 <= i < j && Enabled(txs[i], Press(true)) && txs[i + 1] == Step(txs[i], Press(true))
  {
    hide TxInv, Step, Enabled;
    if j > 0 {
      ApprovedPressIs(txs, j - 1);
      assert Moves(txs[j - 1], txs[j - 1 + 1]);
      var e :| Enabled(txs[j - 1], e) && txs[j] == Step(txs[j - 1], e);
      PressIsRecorded(txs[j - 1], e);
      if Enabled(txs[j - 1], Press(true)) && txs[j] == Step(txs[j - 1], Press(true)) {
        PressIsRecorded(txs[j - 1], Press(true));
      }
    }
  }

  lemma PressIsRecorded(tx: Tx, e: Event)
    requires Enabled(tx, e)
    ensures Step(tx, e).ch.approvedPress == (tx.ch.approvedPress || e == Press(true))
  {
    HandlerKeepsApprovedPress(tx, e);
    WaiterKeepsApprovedPress(tx, e);
    SignerKeepsApprovedPress(tx, e);
    hide HandlerStep, WaiterStep, SignerStep, Enabled;
  }

  lemma HandlerKeepsApprovedPress(tx: Tx, e: Event)
    requires Enabled(tx, e)
    ensures HandlerStep(tx, e).ch.approvedPress == tx.ch.approvedPress
  {
    hide A.AnalysisOf, UpdateStatus;
  }

  lemma WaiterKeepsApprovedPress(tx: Tx, e: Event)
    requires Enabled(tx, e)
    ensures WaiterStep(tx, e).ch.approvedPress == tx.ch.approvedPress
  {
    hide UpdateStatus;
  }

  lemma SignerKeepsApprovedPress(tx: Tx, e: Event)
    requires Enabled(tx, e)
    ensures SignerStep(tx, e).ch.approvedPress == tx.ch.approvedPress
  {
    hide UpdateStatus;
  }

  lemma EntryNotRejected(tx: Tx)
    requires TxInv(tx) && tx.entries != []
    ensures tx.analysis.Some? && tx.analysis.value.action != A.Reject
    ensures tx.env.Some? && tx.analysis == Some(A.AnalysisOf(tx.env.value, tx.req))
  {
    hide StatusInv, PressInv, HistoryInv, A.AnalysisOf;
  }

  lemma AutoEntryAnalysis(tx: Tx)
    requires TxInv(tx) && tx.entries != [] && tx.ctl.decision != DEscalate
    ensures tx.analysis.Some? && tx.analysis.value.action != A.Reject && tx.analysis.value.whitelisted
  {
    hide GenuineInv, StatusInv, PressInv, HistoryInv;
  }

  // ----- the runs are there -----

  function Last(txs: seq<Tx>): Tx
    requires txs != []
  {
    txs[|txs| - 1]
  }

  lemma Extend(txs: seq<Tx>, e: Event) returns (next: seq<Tx>)
    requires Run(txs) && Enabled(Last(txs), e)
    ensures next != [] && Run(next) && Last(next) == Step(Last(txs), e)
  {
    next := txs + [Step(Last(txs), e)];
    hide Enabled, Step, NewTx;
    assert Moves(Last(txs), Last(next));
    forall i | 0 <= i < |next| - 1 ensures Moves(next[i], next[i + 1]) {
      assert i < |txs| - 1 ==> Moves(txs[i], txs[i + 1]);
    }
  }

  lemma Fresh(req: A.Request) returns (txs: seq<Tx>)
    ensures txs != [] && Run(txs) && Last(txs) == NewTx(0, req)
  {
    txs := [NewTx(0, req)];
    var rid: nat := 0;
    assert txs[0] == NewTx(rid, req);
  }

  /** The signer is about to run, for this request, with nothing fed to it. */
  predicate AtSigning(tx: Tx, req: A.Request) {
    tx.req == req && tx.ctl.signer == Started && tx.ch.feeds == multiset{} && tx.entries == []
  }

  /** What signing leaves as it was. */
  ghost predicate SameCase(tx: Tx, next: Tx) {
    next.req == tx.req && next.env == tx.env && next.analysis == tx.analysis
    && next.ch.approvedPress == tx.ch.approvedPress
  }

  lemma SignerTakes(before: seq<Tx>, req: A.Request, m: seq<Byte>) returns (txs: seq<Tx>)
    requires before != [] && Run(before) && AtSigning(Last(before), req)
    ensures txs != [] && Run(txs) && Last(txs).ctl.signer == Got && Last(txs).msg == Some(m)
    ensures Last(txs).entries == [] && SameCase(Last(before), Last(txs))
  {
    hide Run;
    txs := Extend(before, RegisterReady);
    txs := Extend(txs, Ready(m));
    txs := Extend(txs, SendReady(m));
    txs := Extend(txs, TakeBytes);
  }

  lemma SignerEnters(before: seq<Tx>, req: A.Request, m: seq<Byte>) returns (txs: seq<Tx>)
    requires before != [] && Run(before) && Last(before).req == req
    requires Last(before).ctl.signer == Got && Last(before).msg == Some(m) && Last(before).entries == []
    ensures txs != [] && Run(txs) && Last(txs).ctl.signer == InSign && Last(txs).entries == [Entry(req.path, m)]
    ensures SameCase(Last(before), Last(txs))
  {
    hide Run;
    txs := Extend(before, LoadKey(true));
    txs := Extend(txs, EnterSign);
    assert [] + [Entry(req.path, m)] == [Entry(req.path, m)];
  }

  lemma SignerStores(before: seq<Tx>, sig: seq<Byte>) returns (txs: seq<Tx>)
    requires before != [] && Run(before) && Last(before).ctl.signer == InSign
    ensures txs != [] && Run(txs) && Last(txs).row.status == Signed && Last(txs).entries == Last(before).entries
    ensures SameCase(Last(before), Last(txs))
  {
    hide Run;
    txs := Extend(before, FinishSign(Some(sig)));
    txs := Extend(txs, DropReady);
    txs := Extend(txs, Store);
  }

  lemma SignerCompletes(before: seq<Tx>, req: A.Request, m: seq<Byte>, sig: seq<Byte>) returns (txs: seq<Tx>)
    requires before != [] && Run(before) && AtSigning(Last(before), req)
    ensures txs != [] && Run(txs) && Last(txs).row.history == [Pending, Approved, Signed]
    ensures Last(txs).entries == [Entry(req.path, m)] && SameCase(Last(before), Last(txs))
  {
    txs := SignerTakes(before, req, m);
    hide AtSigning;
    txs := SignerEnters(txs, req, m);
    txs := SignerStores(txs, sig);
    hide Run;
    HistoryIsAPath(txs, |txs| - 1);
  }

  /** The run is of this request, analysed against env, and enters tss.Sign with m. */
  ghost predicate EntersWith(tx: Tx, env: A.Env, req: A.Request, m: seq<Byte>) {
    && tx.req == req && tx.env == Some(env) && tx.analysis == Some(A.AnalysisOf(env, req))
    && tx.entries == [Entry(req.path, m)]
  }

  /** Auto mode can complete: a whitelisted request that is not rejected has a run that signs any bytes,
      with nobody pressing anything. */
  lemma AutoModeCanSign(env: A.Env, req: A.Request, m: seq<Byte>, sig: seq<Byte>) returns (txs: seq<Tx>)
    requires A.AnalysisOf(env, req).whitelisted && A.AnalysisOf(env, req).action != A.Reject
    ensures txs != [] && Run(txs) && Last(txs).row.history == [Pending, Approved, Signed]
    ensures EntersWith(Last(txs), env, req, m) && !Last(txs).ch.approvedPress
  {
    hide Run, A.AnalysisOf;
    txs := Fresh(req);
    txs := Extend(txs, Analyze(env));
    txs := Extend(txs, Decide(true, true));
    txs := Extend(txs, MarkAutoApproved);
    txs := Extend(txs, StartAuto(true));
    assert AtSigning(Last(txs), req) && !Last(txs).ch.approvedPress;
    assert Last(txs).env == Some(env) && Last(txs).analysis == Some(A.AnalysisOf(env, req));
    hide AtSigning, Step, Enabled;
    txs := SignerCompletes(txs, req, m, sig);
  }

  lemma PressArrives(env: A.Env, req: A.Request) returns (txs: seq<Tx>)
    requires A.AnalysisOf(env, req).action != A.Reject
    ensures txs != [] && Run(txs) && Last(txs).req == req
    ensures Last(txs).env == Some(env) && Last(txs).analysis == Some(A.AnalysisOf(env, req))
    ensures Last(txs).ctl == Control(Registered, Undecided, NoWaiter, NoVerdict, NoSigner)
    ensures Last(txs).ch.decision == Some(true) && Last(txs).ch.feeds == multiset{} && Last(txs).entries == []
  {
    hide Run, A.AnalysisOf;
    txs := Fresh(req);
    txs := Extend(txs, Analyze(env));
    txs := Extend(txs, Decide(false, true));
    txs := Extend(txs, Notify(true, true));
    txs := Extend(txs, Register);
    txs := Extend(txs, Press(true));
    txs := Extend(txs, SendPress(true));
  }

  /** Escalation can complete: a request that is not rejected has a run in which a press approves it. */
  lemma EscalationCanSign(env: A.Env, req: A.Request, m: seq<Byte>, sig: seq<Byte>) returns (txs: seq<Tx>)
    requires A.AnalysisOf(env, req).action != A.Reject
    ensures txs != [] && Run(txs) && Last(txs).row.history == [Pending, Approved, Signed]
    ensures EntersWith(Last(txs), env, req, m)
  {
    hide Run, A.AnalysisOf;
    txs := PressArrives(env, req);
    txs := Extend(txs, Cache);
    txs := Extend(txs, SpawnWaiter);
    txs := Extend(txs, TakeDecision);
    txs := Extend(txs, WriteVerdict);
    txs := Extend(txs, Push);
    txs := Extend(txs, StartApproved(true));
    assert AtSigning(Last(txs), req) && Last(txs).env == Some(env);
    assert Last(txs).analysis == Some(A.AnalysisOf(env, req));
    hide AtSigning, Step, Enabled;
    txs := SignerCompletes(txs, req, m, sig);
  }

  // ----- exactly which requests are signed -----

  /** What an entry into tss.Sign tells about the analysis, with and without a press. */
  lemma EntryTells(txs: seq<Tx>)
    requires txs != [] && Run(txs) && Last(txs).entries != []
    ensures Last(txs).analysis.Some? && Last(txs).analysis.value.action != A.Reject
    ensures !Last(txs).ch.approvedPress ==> Last(txs).analysis.value.whitelisted
  {
    hide Run, A.AnalysisOf;
    RunKeepsInv(txs, |txs| - 1);
  }

  /** Some run signs m for the request with nobody having approved it. */
  ghost predicate SignedUnseen(env: A.Env, req: A.Request, m: seq<Byte>) {
    exists txs :: txs != [] && Run(txs) && EntersWith(Last(txs), env, req, m) && !Last(txs).ch.approvedPress
  }

  /** A request is signed with nobody having approved it, in some run, if and only if the analyzer does not
      reject it and some effective recipient is listed; one is enough, whoever the others are. */
  lemma SignsUnseenIff(env: A.Env, req: A.Request, m: seq<Byte>)
    ensures SignedUnseen(env, req, m) <==>
              && A.AnalysisOf(env, req).action != A.Reject
              && A.AnyListed(env, A.EffectiveTo(req, A.DecodedTx(env, req)))
  {
    FlagMeans(env, req);
    hide Run, A.AnalysisOf, A.AnyListed, EntersWith;
    if A.AnalysisOf(env, req).action != A.Reject && A.AnalysisOf(env, req).whitelisted {
      var txs := AutoModeCanSign(env, req, m, []);
    }
    forall txs | txs != [] && Run(txs) && EntersWith(Last(txs), env, req, m) && !Last(txs).ch.approvedPress
      ensures A.AnalysisOf(env, req).whitelisted && A.AnalysisOf(env, req).action != A.Reject
    {
      EntersMeans(Last(txs), env, req, m);
      EntryTells(txs);
    }
  }

  /** The flag of an analysis that does not reject is that of the whitelist loop. */
  lemma FlagMeans(env: A.Env, req: A.Request)
    ensures A.AnalysisOf(env, req).action != A.Reject ==>
              (A.AnalysisOf(env, req).whitelisted <==> A.AnyListed(env, A.EffectiveTo(req, A.DecodedTx(env, req))))
  {
  }

  /** What auto mode trusts when the bytes name no recipient: such a request is signed unseen in some run, with
      any bytes, if and only if it is not rejected and a recipient that it merely claims is listed. */
  lemma ClaimSignsUnseenIff(env: A.Env, req: A.Request, m: seq<Byte>)
    requires !A.BytesName(env, req)
    ensures SignedUnseen(env, req, m) <==> A.AnalysisOf(env, req).action != A.Reject && A.AnyListed(env, req.to)
  {
    assert A.EffectiveTo(req, A.DecodedTx(env, req)) == req.to;
    hide A.AnalysisOf, A.AnyListed, SignedUnseen;
    SignsUnseenIff(env, req, m);
  }

  /** It happens where nothing can be decoded: no adapter for the path, a listed address claimed. */
  lemma UndecodedIsSignedUnseen(m: seq<Byte>)
    returns (env: A.Env, req: A.Request)
    ensures A.DecodedTx(env, req) == None && !A.Compared(env, req) && SignedUnseen(env, req, m)
  {
    env := A.Env(s => None, p => None, {"ab"}, {}, A.Disabled);
    req := A.Request(["ab"], "", "", "", "");
    ClaimListed(env, req);
    hide A.AnalysisOf, A.AnyListed, SignedUnseen;
    ClaimSignsUnseenIff(env, req, m);
  }

  /** It happens where everything is decoded and compared: a contract creation has no recipient. */
  lemma CreationIsSignedUnseen(m: seq<Byte>)
    returns (env: A.Env, req: A.Request)
    ensures A.DecodedTx(env, req) == Some(A.Decoded([], "0")) && A.Compared(env, req) && SignedUnseen(env, req, m)
  {
    var adapter := A.Adapter(raw => Some(A.Decoded([], "0")), raw => Some([]));
    env := A.Env(s => Some([]), p => Some(adapter), {"ab"}, {}, A.Disabled);
    req := A.Request(["ab"], "", "", "", "");
    ClaimListed(env, req);
    hide A.AnalysisOf, A.AnyListed, SignedUnseen;
    ClaimSignsUnseenIff(env, req, m);
  }

  /** A claimed, listed recipient, no value or none worth objecting to. */
  lemma ClaimListed(env: A.Env, req: A.Request)
    requires env.whitelist == {"ab"} && env.failing == {} && env.llm == A.Disabled
    requires req.to == ["ab"] && req.value == "" && !A.Tampered(env, req)
    requires A.DecodedTx(env, req) == None || A.DecodedTx(env, req) == Some(A.Decoded([], "0"))
    ensures A.AnalysisOf(env, req).action != A.Reject && A.AnyListed(env, req.to)
  {
    assert ParseInt("0") == Some(0);
    assert A.Lower("ab") == "ab";
    assert A.Listed(env, req.to[0]);
    assert |A.ZERO_ADDRESS| == 42 && |"ab"| == 2;
  }

  lemma EntersMeans(tx: Tx, env: A.Env, req: A.Request, m: seq<Byte>)
    requires EntersWith(tx, env, req, m)
    ensures tx.req == req && tx.entries != [] && tx.analysis == Some(A.AnalysisOf(env, req))
  {
  }

  /** A value so high that the rules escalate it is signed unseen all the same, in some run of auto mode, if
      and only if some effective recipient is listed. */
  lemma HighValueSignsUnseenIff(env: A.Env, req: A.Request, m: seq<Byte>)
    requires !A.Tampered(env, req)
    requires var decoded := A.DecodedTx(env, req);
             A.RuleAction(A.EffectiveTo(req, decoded), A.EffectiveValue(req, decoded)) == Some(A.Escalate)
    ensures SignedUnseen(env, req, m) <==> A.AnyListed(env, A.EffectiveTo(req, A.DecodedTx(env, req)))
  {
    A.HighValueKeepsFlag(env, req);
    hide A.AnalysisOf, A.AnyListed, SignedUnseen;
    SignsUnseenIff(env, req, m);
  }

  ghost predicate RefusedFields(env: A.Env, to: seq<string>, value: string) {
    || to == [] || (exists i :: 0 <= i < |to| && A.Lower(to[i]) == A.ZERO_ADDRESS)
    || (value != "" && ParseInt(value) == None)
    || (env.llm == A.Says(A.Reject) && (value == "" || ParseInt(value).value <= A.HIGH_VALUE))
  }

  /** What keeps a request from being signed in any run, whoever presses: bytes that differ, no recipient or the
      zero address, an unreadable value, or a language model that rejects it, unless a high value has been
      escalated before the model is asked. */
  ghost predicate Refused(env: A.Env, req: A.Request) {
    var decoded := A.DecodedTx(env, req);
    A.Tampered(env, req)
    || RefusedFields(env, if decoded.Some? && decoded.value.to != [] then decoded.value.to else req.to,
                     if decoded.Some? && decoded.value.value != "" then decoded.value.value else req.value)
  }

  /** A request is signed in some run if and only if it is not refused. */
  lemma CanBeSignedIff(env: A.Env, req: A.Request, m: seq<Byte>)
    ensures !Refused(env, req) <==> exists txs :: txs != [] && Run(txs) && EntersWith(Last(txs), env, req, m)
  {
    RefusedIff(env, req);
    hide A.AnalysisOf, Refused, Run, EntersWith;
    if A.AnalysisOf(env, req).action != A.Reject {
      var txs := EscalationCanSign(env, req, m, []);
    }
    forall txs | txs != [] && Run(txs) && EntersWith(Last(txs), env, req, m)
      ensures A.AnalysisOf(env, req).action != A.Reject
    {
      EntersMeans(Last(txs), env, req, m);
      EntryTells(txs);
    }
  }

  lemma RefusedIff(env: A.Env, req: A.Request)
    ensures Refused(env, req) <==> A.AnalysisOf(env, req).action == A.Reject
  {
    hide A.Lower, A.DecodedTx, A.Tampered, ParseInt, A.AnyListed;
  }

  /** Whoever presses, nothing is signed that is refused: what the rules reject, or what a language model rejects
      and no rule has escalated before. */
  lemma SignedWasNotRefused(txs: seq<Tx>)
    requires txs != [] && Run(txs) && Last(txs).entries != []
    ensures Last(txs).env.Some? && !Refused(Last(txs).env.value, Last(txs).req)
  {
    hide A.AnalysisOf, Refused, Run;
    EntryTells(txs);
    RunKeepsInv(txs, |txs| - 1);
    RefusedIff(Last(txs).env.value, Last(txs).req);
  }
}
