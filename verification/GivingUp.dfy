/** A caller of Party A's Sign that gives up before Party B has answered (internal/partya/service.go): what comes
    of its transaction afterwards, in any interleaving. */
module GivingUp {
  import opened Bytes
  import opened Options
  import opened Protocol

  /** Party A has started nothing for the call: no run, no entry in its queue. */
  ghost predicate Untouched(s: State, rid: nat) {
    && (forall k :: 0 <= k < |s.runs| && s.runs[k].txid in s.txs ==> s.txs[s.runs[k].txid].rid != rid)
    && (forall t :: t in s.queue && t in s.txs ==> s.txs[t].rid != rid)
  }

  /** Nothing is started for a call before its answer is taken. */
  ghost predicate WaitingIsUntouched(s: State) {
    forall rid :: (rid in s.calls && s.calls[rid].waiting) || rid >= s.nextRid ==> Untouched(s, rid)
  }

  /** Nor is it ever, once the caller has given up. */
  ghost predicate Abandoned(s: State, rid: nat) {
    rid in s.calls && !s.calls[rid].waiting && Untouched(s, rid)
  }

  /** Runs and queued transactions are of known transactions. */
  lemma KnownTxs(c: Codec, s: State)
    requires Inv(c, s)
    ensures forall k :: 0 <= k < |s.runs| ==> s.runs[k].txid in s.txs
    ensures forall t :: t in s.queue ==> t in s.txs
    ensures forall t :: t in s.txs ==> s.txs[t].rid in s.calls
    ensures forall rid :: rid in s.calls ==> rid < s.nextRid
  {
    hide MsgInv, Granted, FinalBytes, B.TxInv;
    forall k | 0 <= k < |s.runs| ensures s.runs[k].txid in s.txs {
      assert RunInv(c, s, s.runs[k]);
    }
  }

  /** Runs and queue stay, or shrink, and every transaction keeps its call. */
  lemma NothingStarts(s: State, next: State, rid: nat)
    requires forall k :: 0 <= k < |s.runs| ==> s.runs[k].txid in s.txs
    requires forall t :: t in s.queue ==> t in s.txs
    requires forall t :: t in s.txs ==> t in next.txs && next.txs[t].rid == s.txs[t].rid
    requires |next.runs| == |s.runs| && next.queue.Keys <= s.queue.Keys
    requires forall k :: 0 <= k < |s.runs| ==> next.runs[k].txid == s.runs[k].txid
    requires Untouched(s, rid)
    ensures Untouched(next, rid)
  {
  }

  /** A run, or an entry, for a transaction of another call. */
  lemma OtherStarts(s: State, run: SignRun, rid: nat)
    requires Untouched(s, rid) && run.txid in s.txs && s.txs[run.txid].rid != rid
    ensures Untouched(s.(runs := s.runs + [run]), rid)
  {
  }

  lemma OtherQueues(s: State, t: TxId, raw: seq<Byte>, rid: nat)
    requires Untouched(s, rid) && t in s.txs && s.txs[t].rid != rid
    ensures Untouched(s.(queue := s.queue[t := raw]), rid)
  {
  }

  lemma KeepsRid(tx: B.Tx, e: B.Event)
    requires B.Enabled(tx, e)
    ensures B.Step(tx, e).rid == tx.rid
  {
  }

  /** Party B starts nothing at Party A, and a transaction keeps its call. */
  lemma PartyBFrame(c: Codec, s: State, e: Event)
    requires Enabled(c, s, e) && ByPartyB(e)
    ensures var next := Step(c, s, e);
            && next.runs == s.runs && next.queue == s.queue
            && forall t :: t in s.txs ==> t in next.txs && next.txs[t].rid == s.txs[t].rid
  {
    if e.BStep? {
      KeepsRid(s.txs[e.txid], e.e);
    } else if e.BReady? && e.txid in s.txs && B.Enabled(s.txs[e.txid], B.Ready(e.msg)) {
      KeepsRid(s.txs[e.txid], B.Ready(e.msg));
    }
    hide B.Step, B.Enabled, Recipients, Sends;
  }

  /** The answer is of a transaction of its call. */
  lemma AnsweredTx(c: Codec, s: State, rid: nat, resp: Response)
    requires Inv(c, s) && SignResponse(rid, resp) in s.net && !resp.RejectTx?
    ensures resp.txid in s.txs && s.txs[resp.txid].rid == rid
  {
    hide CallsInv, TxsInv, QueueInv, RunsInv, OnceInv, FedInv, Granted;
    assert MsgInv(s, SignResponse(rid, resp));
  }

  lemma OnlyRunsAndQueueMatter(s: State, net: multiset<Msg>, calls: map<nat, Call>, rid: nat)
    requires Untouched(s, rid)
    ensures Untouched(s.(net := net), rid) && Untouched(s.(net := net, calls := calls), rid)
  {
  }

  /** The answer to another call, or one that comes too late, starts nothing for this one. */
  lemma ResponseTouches(c: Codec, s: State, answered: nat, resp: Response, rid: nat)
    requires Inv(c, s) && SignResponse(answered, resp) in s.net && Untouched(s, rid)
    requires answered == rid ==> !(rid in s.calls && s.calls[rid].waiting)
    ensures Untouched(Respond(s.(net := s.net - multiset{SignResponse(answered, resp)}), answered, resp), rid)
  {
    var net := s.net - multiset{SignResponse(answered, resp)};
    OnlyRunsAndQueueMatter(s, net, s.calls, rid);
    if answered in s.calls && s.calls[answered].waiting {
      var call := s.calls[answered];
      var calls := s.calls[answered := call.(waiting := false)];
      var next := s.(net := net, calls := calls);
      OnlyRunsAndQueueMatter(s, net, calls, rid);
      if !resp.RejectTx? {
        AnsweredTx(c, s, answered, resp);
        hide Inv, Untouched;
        if resp.ApproveTx? {
          OtherStarts(next, SignRun(resp.txid, call.req.path, call.raw, None, false), rid);
        } else {
          OtherQueues(next, resp.txid, call.raw, rid);
        }
      }
    }
  }

  lemma ApprovedTouches(c: Codec, s: State, t: TxId, path: string, rid: nat)
    requires Inv(c, s) && t in s.queue && Untouched(s, rid)
    ensures var next := s.(net := s.net - multiset{SignApproved(t, path)});
            Untouched(next.(runs := s.runs + [SignRun(t, path, s.queue[t], None, false)]), rid)
  {
    KnownTxs(c, s);
    var next := s.(net := s.net - multiset{SignApproved(t, path)});
    assert Untouched(next, rid);
    OtherStarts(next, SignRun(t, path, s.queue[t], None, false), rid);
  }

  /** What a step starts for a call: nothing, unless it takes the answer while the caller waits. */
  lemma StepTouches(c: Codec, s: State, e: Event, rid: nat)
    requires Inv(c, s) && Enabled(c, s, e) && Untouched(s, rid)
    requires e.AResponse? && e.rid == rid ==> !(rid in s.calls && s.calls[rid].waiting)
    ensures Untouched(Step(c, s, e), rid)
  {
    KnownTxs(c, s);
    hide Inv, Untouched, FinalBytes;
    if ByPartyB(e) {
      PartyBFrame(c, s, e);
      NothingStarts(s, Step(c, s, e), rid);
    } else {
      PartyATouches(c, s, e, rid);
    }
  }

  lemma PartyATouches(c: Codec, s: State, e: Event, rid: nat)
    requires Inv(c, s) && Enabled(c, s, e) && Untouched(s, rid) && !ByPartyB(e)
    requires e.AResponse? && e.rid == rid ==> !(rid in s.calls && s.calls[rid].waiting)
    ensures Untouched(StepA(c, s, e), rid)
  {
    KnownTxs(c, s);
    hide Inv, Untouched, FinalBytes, Respond, B.Enabled;
    if e.AResponse? {
      ResponseTouches(c, s, e.rid, e.resp, rid);
    } else if e.AApproved? && e.txid in s.queue && e.found {
      ApprovedTouches(c, s, e.txid, e.path, rid);
    } else {
      PartyAFrame(c, s, e);
      hide StepA, Enabled;
      NothingStarts(s, StepA(c, s, e), rid);
    }
  }

  lemma PartyAFrame(c: Codec, s: State, e: Event)
    requires Enabled(c, s, e) && !e.AResponse? && !(e.AApproved? && e.txid in s.queue && e.found)
    ensures var next := StepA(c, s, e);
            && |next.runs| == |s.runs| && next.queue.Keys <= s.queue.Keys
            && forall k :: 0 <= k < |s.runs| ==> next.runs[k].txid == s.runs[k].txid
  {
    hide FinalBytes, Respond, B.Enabled;
  }

  /** A waiting call stays what it is unless its answer is taken or its caller gives up. */
  lemma CallMoves(c: Codec, s: State, e: Event, rid: nat)
    requires CallsInv(c, s) && Enabled(c, s, e)
    ensures var next := Step(c, s, e);
            && s.nextRid <= next.nextRid
            && (rid in s.calls ==> rid in next.calls && (next.calls[rid].waiting ==> s.calls[rid].waiting))
            && (rid in next.calls && rid !in s.calls ==> rid == s.nextRid)
            && (e.AResponse? && e.rid == rid && rid in next.calls ==> !next.calls[rid].waiting)
  {
    hide FinalBytes, B.Enabled, B.Step, Recipients, Sends;
    if e.AResponse? {
      hide Enabled;
      ResponseMoves(s.(net := s.net - multiset{SignResponse(e.rid, e.resp)}), e.rid, e.resp, rid);
    }
    hide Respond;
  }

  lemma ResponseMoves(s: State, answered: nat, resp: Response, rid: nat)
    ensures var next := Respond(s, answered, resp);
            && next.nextRid == s.nextRid && next.calls.Keys == s.calls.Keys
            && (rid in s.calls ==> next.calls[rid].waiting == (s.calls[rid].waiting && rid != answered))
  {
  }

  lemma StepKeepsWaiting(c: Codec, s: State, e: Event)
    requires Inv(c, s) && Enabled(c, s, e) && WaitingIsUntouched(s)
    ensures WaitingIsUntouched(Step(c, s, e))
  {
    var next := Step(c, s, e);
    KnownTxs(c, s);
    assert CallsInv(c, s);
    hide Inv, CallsInv, Enabled, Step, Untouched;
    forall rid | (rid in next.calls && next.calls[rid].waiting) || rid >= next.nextRid ensures Untouched(next, rid) {
      CallMoves(c, s, e, rid);
      StepTouches(c, s, e, rid);
    }
  }

  lemma {:induction false} ExecutionKeepsWaiting(c: Codec, seed: set<string>, ss: seq<State>, i: nat)
    requires Execution(c, seed, ss) && i < |ss|
    ensures WaitingIsUntouched(ss[i])
  {
    hide Inv, Step, Enabled;
    if i > 0 {
      hide WaitingIsUntouched;
      ExecutionKeepsWaiting(c, seed, ss, i - 1);
      ExecutionKeepsInv(c, seed, ss, i - 1);
      assert Moves(c, ss[i - 1], ss[i - 1 + 1]);
      var e :| Enabled(c, ss[i - 1], e) && ss[i] == Step(c, ss[i - 1], e);
      StepKeepsWaiting(c, ss[i - 1], e);
    }
  }

  /** When a waiting caller gives up, its call is abandoned. */
  lemma GivingUpAbandons(c: Codec, seed: set<string>, ss: seq<State>, i: nat, rid: nat)
    requires Execution(c, seed, ss) && i < |ss| && rid in ss[i].calls && ss[i].calls[rid].waiting
    ensures Abandoned(Step(c, ss[i], AGiveUp(rid)), rid)
  {
    hide Execution;
    ExecutionKeepsWaiting(c, seed, ss, i);
  }

  /** So is a call whose transaction is deleted from the queue before the user's approval arrives. */
  lemma DeletingAbandons(c: Codec, s: State, rid: nat, t: TxId)
    requires rid in s.calls && !s.calls[rid].waiting
    requires forall k :: 0 <= k < |s.runs| && s.runs[k].txid in s.txs ==> s.txs[s.runs[k].txid].rid != rid
    requires forall u :: u in s.queue && u in s.txs && s.txs[u].rid == rid ==> u == t
    ensures Enabled(c, s, ADelete(t)) && Abandoned(Step(c, s, ADelete(t)), rid)
  {
    hide FinalBytes, Respond, B.Enabled;
    var next := s.(queue := s.queue - {t});
    assert Untouched(next, rid);
    hide Untouched;
    assert Step(c, s, ADelete(t)) == next;
  }

  lemma StepKeepsAbandoned(c: Codec, s: State, e: Event, rid: nat)
    requires Inv(c, s) && Enabled(c, s, e) && Abandoned(s, rid)
    ensures Abandoned(Step(c, s, e), rid)
  {
    assert CallsInv(c, s);
    hide Inv, CallsInv, Untouched, Step, Enabled;
    CallMoves(c, s, e, rid);
    StepTouches(c, s, e, rid);
  }

  lemma {:induction false} StaysAbandoned(c: Codec, seed: set<string>, ss: seq<State>, i: nat, j: nat, rid: nat)
    requires Execution(c, seed, ss) && i <= j < |ss| && Abandoned(ss[i], rid)
    ensures Abandoned(ss[j], rid)
  {
    hide Inv, Abandoned, Step, Enabled;
    if i < j {
      StaysAbandoned(c, seed, ss, i, j - 1, rid);
      ExecutionKeepsInv(c, seed, ss, j - 1);
      assert Moves(c, ss[j - 1], ss[j - 1 + 1]);
      var e :| Enabled(c, ss[j - 1], e) && ss[j] == Step(c, ss[j - 1], e);
      StepKeepsAbandoned(c, ss[j - 1], e, rid);
    }
  }

  /** In every execution: once the caller of Sign has given up before its answer was taken, neither party ever
      enters tss.Sign for its transaction, whatever Party B and the user decide. */
  lemma GivenUpIsNeverSigned(c: Codec, seed: set<string>, ss: seq<State>, i: nat, j: nat, rid: nat, t: TxId)
    requires Execution(c, seed, ss) && i < j < |ss| && rid in ss[i].calls && ss[i].calls[rid].waiting
    requires ss[i + 1] == Step(c, ss[i], AGiveUp(rid))
    requires t in ss[j].txs && ss[j].txs[t].rid == rid
    ensures ss[j].txs[t].entries == [] && forall k :: 0 <= k < |ss[j].runs| ==> ss[j].runs[k].txid != t
  {
    hide Execution, Step, Inv;
    GivingUpAbandons(c, seed, ss, i, rid);
    StaysAbandoned(c, seed, ss, i + 1, j, rid);
    ExecutionKeepsInv(c, seed, ss, j);
    if ss[j].txs[t].entries != [] {
      Signed(c, ss[j], t);
    }
  }
}
