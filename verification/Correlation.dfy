/** Request and response over one connection (internal/transport/client.go, server.go): numbered requests
    wait on a channel of their own, a read loop hands out replies, and the server also pushes messages
    that answer nothing and carry ID 0. */
module Correlation {
  import opened Bytes
  import opened Options

  type Body = seq<Byte>

  /** From client to server. */
  datatype Packet = Packet(id: nat, body: Body)

  /** From server to client; answers is the request that the handler was given, if any. */
  datatype Reply = Reply(id: nat, body: Body, answers: Option<Body>)

  /** Where a call of Request is. Leaving: the send failed or the context ended, and the delete is next. */
  datatype Call =
    | Numbered(body: Body) | Registered(body: Body) | Waiting(body: Body) | Leaving(body: Body)
    | Returned(body: Body, got: Option<Reply>)

  datatype State = State(
    counter: nat,                   // msgIDSeq
    calls: map<nat, Call>,          // by the ID drawn
    pending: set<nat>,              // keys of c.pending
    chans: map<nat, Reply>,         // buffered replies, at most one in a channel
    reader: Option<Reply>,          // the read loop holds a channel and has not sent on it yet
    delivered: seq<nat>,            // channels sent on, in order
    toServer: multiset<Packet>,
    toClient: multiset<Reply>)

  datatype Event =
    // Request
    | Draw(body: Body) | Register(id: nat) | SendOk(id: nat) | SendFail(id: nat)
    | Receive(id: nat) | Cancel(id: nat) | Unregister(id: nat)
    // Send: a protocol round, numbered but not waited for
    | SendRound(body: Body)
    // readLoop
    | ReadReply(r: Reply, response: Option<Body>) | Deliver
    // handleConn, Server.Send
    | Handle(p: Packet, response: Option<Body>) | Push(body: Body)
    | Lose(p: Packet) | LoseReply(r: Reply)

  const INIT: State := State(0, map[], {}, map[], None, [], multiset{}, multiset{})

  predicate Enabled(s: State, e: Event) {
    match e
    case Draw(_) => true
    case Register(id) => id in s.calls && s.calls[id].Numbered?
    case SendOk(id) => id in s.calls && s.calls[id].Registered?
    case SendFail(id) => id in s.calls && s.calls[id].Registered?
    case Receive(id) => id in s.calls && s.calls[id].Waiting? && id in s.chans
    case Cancel(id) => id in s.calls && s.calls[id].Waiting?
    case Unregister(id) => id in s.calls && s.calls[id].Leaving?
    case SendRound(_) => true
    case ReadReply(r, _) => r in s.toClient && s.reader == None
    case Deliver => s.reader.Some? && s.reader.value.id !in s.chans
    case Handle(p, _) => p in s.toServer
    case Push(_) => true
    case Lose(p) => p in s.toServer
    case LoseReply(r) => r in s.toClient
  }

  function Go(s: State, id: nat, call: Call): State {
    s.(calls := s.calls[id := call])
  }

  predicate OnWire(e: Event) {
    e.SendRound? || e.ReadReply? || e.Deliver? || e.Handle? || e.Push? || e.Lose? || e.LoseReply?
  }

  function Step(s: State, e: Event): (next: State)
    requires Enabled(s, e)
    ensures OnWire(e) ==> next.calls == s.calls && s.counter <= next.counter && next.pending <= s.pending
    ensures !e.ReadReply? && !e.Deliver? ==> next.reader == s.reader && next.delivered == s.delivered
    ensures OnWire(e) && !e.Deliver? ==> next.chans == s.chans
  {
    match e
    case Draw(body) => Go(s, s.counter + 1, Numbered(body)).(counter := s.counter + 1)
    case Register(id) => Go(s, id, Registered(s.calls[id].body)).(pending := s.pending + {id}, chans := s.chans - {id})
    case SendOk(id) =>
      Go(s, id, Waiting(s.calls[id].body)).(toServer := s.toServer + multiset{Packet(id, s.calls[id].body)})
    case SendFail(id) => Go(s, id, Leaving(s.calls[id].body))
    case Receive(id) => Go(s, id, Returned(s.calls[id].body, Some(s.chans[id]))).(chans := s.chans - {id})
    case Cancel(id) => Go(s, id, Leaving(s.calls[id].body))
    case Unregister(id) => Go(s, id, Returned(s.calls[id].body, None)).(pending := s.pending - {id})
    case SendRound(body) =>
      s.(counter := s.counter + 1, toServer := s.toServer + multiset{Packet(s.counter + 1, body)})
    case ReadReply(r, response) =>
      var next := s.(toClient := s.toClient - multiset{r});
      if r.id in s.pending then next.(pending := s.pending - {r.id}, reader := Some(r))
      else if response.Some? then next.(toServer := s.toServer + multiset{Packet(r.id, response.value)})
      else next
    case Deliver =>
      var r := s.reader.value;
      s.(reader := None, chans := s.chans[r.id := r], delivered := s.delivered + [r.id])
    case Handle(p, response) =>
      var next := s.(toServer := s.toServer - multiset{p});
      if response.Some? then next.(toClient := s.toClient + multiset{Reply(p.id, response.value, Some(p.body))})
      else next
    case Push(body) => s.(toClient := s.toClient + multiset{Reply(0, body, None)})
    case Lose(p) => s.(toServer := s.toServer - multiset{p})
    case LoseReply(r) => s.(toClient := s.toClient - multiset{r})
  }

  // ----- the inductive invariant -----

  /** IDs come from the counter, and a registration is live until it is taken or given up. */
  ghost predicate PendingInv(s: State) {
    && (forall id :: id in s.calls ==> 1 <= id <= s.counter)
    && (forall id :: id in s.pending ==>
          id in s.calls && (s.calls[id].Registered? || s.calls[id].Waiting? || s.calls[id].Leaving?))
  }

  predicate Used(s: State, id: nat) {
    id in s.chans || id in s.delivered || (s.reader.Some? && s.reader.value.id == id)
  }

  /** A channel is used only after its registration is gone, and then once. */
  ghost predicate ChannelInv(s: State) {
    && (forall id :: Used(s, id) ==> id in s.calls && id !in s.pending && !s.calls[id].Numbered?)
    && (s.reader.Some? ==> s.reader.value.id !in s.chans && s.reader.value.id !in s.delivered)
    && (forall i, j :: 0 <= i < j < |s.delivered| ==> s.delivered[i] != s.delivered[j])
  }

  /** The reply answers the request of the call it is numbered for. */
  predicate Answers(s: State, r: Reply) {
    r.id in s.calls && r.answers == Some(s.calls[r.id].body)
  }

  predicate Sent(s: State, id: nat) {
    id in s.calls && (s.calls[id].Waiting? || s.calls[id].Leaving? || s.calls[id].Returned?)
  }

  /** While a call is pending, everything on the wire under its ID is its request or an answer to it. */
  predicate PacketOk(s: State, p: Packet) {
    && p.id <= s.counter && (p.id in s.calls ==> Sent(s, p.id))
    && (p.id in s.pending ==> p.id in s.calls && p.body == s.calls[p.id].body)
  }

  predicate ReplyOk(s: State, r: Reply) {
    && r.id <= s.counter && (r.id in s.calls ==> Sent(s, r.id))
    && (r.id in s.pending ==> Answers(s, r))
  }

  ghost predicate WireInv(s: State) {
    && (forall p :: p in s.toServer ==> PacketOk(s, p))
    && (forall r :: r in s.toClient ==> ReplyOk(s, r))
  }

  ghost predicate ReplyInv(s: State) {
    && (s.reader.Some? ==> Answers(s, s.reader.value))
    && (forall id :: id in s.chans ==> s.chans[id].id == id && Answers(s, s.chans[id]))
    && (forall id :: id in s.calls && s.calls[id].Returned? && s.calls[id].got.Some? ==>
          s.calls[id].got.value.id == id && Answers(s, s.calls[id].got.value))
  }

  ghost predicate Inv(s: State) {
    PendingInv(s) && ChannelInv(s) && WireInv(s) && ReplyInv(s)
  }

  // ----- each step keeps it -----

  /** Calls are only added, under fresh IDs, keep their bodies, and are registered before they are sent. */
  ghost predicate Grows(s: State, next: State) {
    && s.counter <= next.counter
    && (forall id :: id in s.calls ==> id in next.calls && next.calls[id].body == s.calls[id].body)
    && (forall id :: id in next.calls ==> id in s.calls || id > s.counter)
    && (forall id :: Sent(s, id) ==> Sent(next, id))
    && (forall id :: id in next.pending ==> id in s.pending || !Sent(s, id))
  }

  lemma CallGrows(s: State, e: Event)
    requires PendingInv(s) && Enabled(s, e) && !OnWire(e)
    ensures Grows(s, Step(s, e))
  {
  }

  lemma StepGrows(s: State, e: Event)
    requires PendingInv(s) && Enabled(s, e)
    ensures Grows(s, Step(s, e))
  {
    hide Step, Enabled;
    if !OnWire(e) {
      hide Grows;
      CallGrows(s, e);
    }
  }

  lemma CallKeepsPending(s: State, e: Event)
    requires PendingInv(s) && ChannelInv(s) && Enabled(s, e) && !OnWire(e)
    ensures PendingInv(Step(s, e))
  {
  }

  lemma StepKeepsPending(s: State, e: Event)
    requires PendingInv(s) && ChannelInv(s) && Enabled(s, e)
    ensures PendingInv(Step(s, e))
  {
    hide Step, Enabled, ChannelInv;
    if !OnWire(e) {
      hide PendingInv;
      CallKeepsPending(s, e);
    }
  }

  lemma CallKeepsChannels(s: State, e: Event)
    requires PendingInv(s) && ChannelInv(s) && Enabled(s, e) && !e.ReadReply? && !e.Deliver?
    ensures ChannelInv(Step(s, e))
  {
    var next := Step(s, e);
    forall id | Used(next, id) ensures Used(s, id) {
    }
  }

  lemma ReaderKeepsChannels(s: State, e: Event)
    requires PendingInv(s) && ChannelInv(s) && Enabled(s, e) && (e.ReadReply? || e.Deliver?)
    ensures ChannelInv(Step(s, e))
  {
  }

  lemma OkStays(s: State, next: State)
    requires Grows(s, next)
    requires forall id :: id in next.pending ==> id in next.calls
    ensures forall p :: PacketOk(s, p) ==> PacketOk(next, p)
    ensures forall r :: ReplyOk(s, r) ==> ReplyOk(next, r)
    ensures forall r :: Answers(s, r) ==> Answers(next, r)
  {
    hide Sent;
  }

  lemma StepKeepsWire(s: State, e: Event)
    requires PendingInv(s) && ChannelInv(s) && WireInv(s) && Enabled(s, e)
    ensures WireInv(Step(s, e))
  {
    var next := Step(s, e);
    StepGrows(s, e);
    StepKeepsPending(s, e);
    OkStays(s, next);
    forall p | p in next.toServer && p !in s.toServer ensures PacketOk(next, p) {
      NewPacket(s, e, p);
    }
    forall r | r in next.toClient && r !in s.toClient ensures ReplyOk(next, r) {
      NewReply(s, e, r);
    }
    hide Step, PacketOk, ReplyOk, Grows, PendingInv;
  }

  lemma NewPacket(s: State, e: Event, p: Packet)
    requires PendingInv(s) && WireInv(s) && Enabled(s, e)
    requires p in Step(s, e).toServer && p !in s.toServer
    ensures PacketOk(Step(s, e), p)
  {
    match e
    case SendOk(id) =>
    case SendRound(_) =>
    case ReadReply(r, _) => assert ReplyOk(s, r);
    case _ =>
  }

  lemma NewReply(s: State, e: Event, r: Reply)
    requires PendingInv(s) && WireInv(s) && Enabled(s, e)
    requires r in Step(s, e).toClient && r !in s.toClient
    ensures ReplyOk(Step(s, e), r)
  {
    match e
    case Handle(p, _) => assert PacketOk(s, p);
    case Push(_) =>
    case _ =>
  }

  lemma CallKeepsReplies(s: State, e: Event)
    requires ReplyInv(s) && Enabled(s, e) && !OnWire(e)
    requires forall r :: Answers(s, r) ==> Answers(Step(s, e), r)
    ensures ReplyInv(Step(s, e))
  {
    hide Answers;
  }

  lemma ReaderKeepsReplies(s: State, e: Event)
    requires ReplyInv(s) && Enabled(s, e) && OnWire(e)
    requires e.ReadReply? && e.r.id in s.pending ==> Answers(s, e.r)
    ensures ReplyInv(Step(s, e))
  {
    if e.Deliver? {
      Delivered(s, Step(s, e));
    } else if e.ReadReply? {
      hide Answers;
    } else {
      hide Step, Enabled, Answers;
      SameReplies(s, Step(s, e));
    }
  }

  lemma Delivered(s: State, next: State)
    requires ReplyInv(s) && s.reader.Some? && next.calls == s.calls && next.reader == None
    requires next.chans == s.chans[s.reader.value.id := s.reader.value]
    ensures ReplyInv(next)
  {
  }

  lemma SameReplies(s: State, next: State)
    requires ReplyInv(s) && next.calls == s.calls && next.reader == s.reader && next.chans == s.chans
    ensures ReplyInv(next)
  {
  }

  lemma StepKeepsReplies(s: State, e: Event)
    requires Inv(s) && Enabled(s, e)
    ensures ReplyInv(Step(s, e))
  {
    StepGrows(s, e);
    StepKeepsPending(s, e);
    OkStays(s, Step(s, e));
    if e.ReadReply? {
      assert ReplyOk(s, e.r);
    }
    hide Step, Inv, PendingInv, WireInv, ReplyInv, Grows, ChannelInv, PacketOk, Answers;
    if OnWire(e) {
      ReaderKeepsReplies(s, e);
    } else {
      CallKeepsReplies(s, e);
    }
  }

  // ----- whole runs -----

  ghost predicate Moves(s: State, next: State) {
    exists e :: Enabled(s, e) && next == Step(s, e)
  }

  ghost predicate Execution(ss: seq<State>) {
    && ss != [] && ss[0] == INIT
    && forall i :: 0 <= i < |ss| - 1 ==> Moves(ss[i], ss[i + 1])
  }

  lemma StepKeepsInv(s: State, e: Event)
    requires Inv(s) && Enabled(s, e)
    ensures Inv(Step(s, e))
  {
    hide Step, Enabled, PendingInv, ChannelInv, WireInv, ReplyInv;
    StepKeepsPending(s, e);
    if e.ReadReply? || e.Deliver? {
      ReaderKeepsChannels(s, e);
    } else {
      CallKeepsChannels(s, e);
    }
    StepKeepsWire(s, e);
    StepKeepsReplies(s, e);
  }

  lemma {:induction false} ExecutionKeepsInv(ss: seq<State>, i: nat)
    requires Execution(ss) && i < |ss|
    ensures Inv(ss[i])
  {
    hide Step, Enabled;
    if i > 0 {
      hide Inv;
      ExecutionKeepsInv(ss, i - 1);
      assert Moves(ss[i - 1], ss[i - 1 + 1]);
      var e :| Enabled(ss[i - 1], e) && ss[i] == Step(ss[i - 1], e);
      StepKeepsInv(ss[i - 1], e);
    }
  }

  /** In every execution, a call that got a reply got one with its own ID, made by the server in answer to
      this very request. */
  lemma RequestsGetTheirOwnReply(ss: seq<State>, i: nat, id: nat)
    requires Execution(ss) && i < |ss| && id in ss[i].calls
    requires ss[i].calls[id].Returned? && ss[i].calls[id].got.Some?
    ensures var call := ss[i].calls[id];
            id >= 1 && call.got.value.id == id && call.got.value.answers == Some(call.body)
  {
    hide Execution, ChannelInv, WireInv;
    ExecutionKeepsInv(ss, i);
  }

  /** The read loop never blocks on a response channel, no channel is ever sent on twice, and none for ID 0. */
  lemma ReadLoopNeverBlocks(ss: seq<State>, i: nat)
    requires Execution(ss) && i < |ss|
    ensures ss[i].reader.Some? ==> Enabled(ss[i], Deliver)
    ensures forall j, k :: 0 <= j < k < |ss[i].delivered| ==> ss[i].delivered[j] != ss[i].delivered[k]
    ensures 0 !in ss[i].delivered && (ss[i].reader.Some? ==> ss[i].reader.value.id != 0)
  {
    hide Execution, WireInv, ReplyInv;
    ExecutionKeepsInv(ss, i);
    assert !Used(ss[i], 0);
  }

  /** Every registered ID was drawn from the counter. */
  lemma PendingIdsWereDrawn(ss: seq<State>, i: nat)
    requires Execution(ss) && i < |ss|
    ensures forall id :: id in ss[i].pending ==> 1 <= id <= ss[i].counter
  {
    hide Execution, WireInv, ReplyInv, ChannelInv;
    ExecutionKeepsInv(ss, i);
  }

  // ----- calls can be answered -----

  function Last(ss: seq<State>): State
    requires ss != []
  {
    ss[|ss| - 1]
  }

  lemma Extend(ss: seq<State>, e: Event) returns (next: seq<State>)
    requires ss != [] && Execution(ss) && Enabled(Last(ss), e)
    ensures next != [] && Execution(next) && ss <= next && Last(next) == Step(Last(ss), e)
  {
    next := ss + [Step(Last(ss), e)];
    hide Enabled, Step;
    assert Moves(Last(ss), Last(next));
    forall i | 0 <= i < |next| - 1 ensures Moves(next[i], next[i + 1]) {
      assert i < |ss| - 1 ==> Moves(ss[i], ss[i + 1]);
    }
  }

  /** The read loop sends on the channel it holds, if any. */
  lemma Delivers(ss: seq<State>) returns (next: seq<State>)
    requires ss != [] && Execution(ss)
    ensures next != [] && Execution(next) && ss <= next
    ensures Last(next).reader == None && Last(next).calls == Last(ss).calls
  {
    ReadLoopNeverBlocks(ss, |ss| - 1);
    hide Execution;
    next := ss;
    if Last(ss).reader.Some? {
      next := Extend(ss, Deliver);
    }
  }

  /** A call is numbered, registered and sent. */
  lemma Asks(ss: seq<State>, body: Body) returns (next: seq<State>, id: nat)
    requires ss != [] && Execution(ss) && Last(ss).reader == None
    ensures next != [] && Execution(next) && ss <= next && id == Last(ss).counter + 1
    ensures id in Last(next).calls && Last(next).calls[id] == Waiting(body)
    ensures id in Last(next).pending && id !in Last(next).chans && Last(next).reader == None
    ensures Packet(id, body) in Last(next).toServer
  {
    hide Execution;
    id := Last(ss).counter + 1;
    next := Extend(ss, Draw(body));
    next := Extend(next, Register(id));
    next := Extend(next, SendOk(id));
  }

  /** The server answers, the read loop hands the reply out, and the call returns. */
  lemma GetsReply(ss: seq<State>, id: nat, body: Body, response: Body) returns (next: seq<State>)
    requires ss != [] && Execution(ss) && id in Last(ss).calls && Last(ss).calls[id] == Waiting(body)
    requires id in Last(ss).pending && id !in Last(ss).chans && Last(ss).reader == None
    requires Packet(id, body) in Last(ss).toServer
    ensures next != [] && Execution(next) && ss <= next && id in Last(next).calls
    ensures Last(next).calls[id] == Returned(body, Some(Reply(id, response, Some(body))))
  {
    hide Execution;
    next := Extend(ss, Handle(Packet(id, body), Some(response)));
    next := Extend(next, ReadReply(Reply(id, response, Some(body)), None));
    next := Extend(next, Deliver);
    next := Extend(next, Receive(id));
  }

  /** Wherever an execution stands, a further call can be made, answered and returned: its reply carries the body
      that the server made for it. */
  lemma CallCanBeAnswered(ss: seq<State>, body: Body, response: Body) returns (next: seq<State>, id: nat)
    requires ss != [] && Execution(ss)
    ensures next != [] && Execution(next) && ss <= next && id in Last(next).calls && id !in Last(ss).calls
    ensures Last(next).calls[id] == Returned(body, Some(Reply(id, response, Some(body))))
  {
    next := Delivers(ss);
    ExecutionKeepsInv(next, |next| - 1);
    hide Execution, ChannelInv, WireInv, ReplyInv;
    var asked;
    asked, id := Asks(next, body);
    next := GetsReply(asked, id, body, response);
  }

  /** A waiting call whose context ends returns without a reply and is unregistered. */
  lemma CallCanBeCancelled(ss: seq<State>, id: nat) returns (next: seq<State>)
    requires ss != [] && Execution(ss) && id in Last(ss).calls && Last(ss).calls[id].Waiting?
    ensures next != [] && Execution(next) && ss <= next && id in Last(next).calls && id !in Last(next).pending
    ensures Last(next).calls[id] == Returned(Last(ss).calls[id].body, None)
  {
    hide Execution;
    next := Extend(ss, Cancel(id));
    next := Extend(next, Unregister(id));
  }
}
