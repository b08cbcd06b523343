/** The wire format (internal/transport/protocol.go): a 13-byte header, then the payload, written in two
    steps under a lock, and read back from a stream that may end anywhere. */
module Framing {
  import opened Bytes
  import opened Options

  const HEADER: nat := 13
  const MAX_MESSAGE_SIZE: nat := 16 * 1024 * 1024

  datatype Message = Message(typ: Byte, id: nat, payload: seq<Byte>)

  predicate Sendable(m: Message) {
    m.id < Pow256(8) && |m.payload| <= MAX_MESSAGE_SIZE
  }

  function Header(m: Message): (h: seq<Byte>)
    ensures |h| == HEADER
  {
    [m.typ] + BEBytes(m.id, 8) + BEBytes(|m.payload|, 4)
  }

  function Frame(m: Message): seq<Byte> {
    Header(m) + m.payload
  }

  function Frames(ms: seq<Message>): seq<Byte> {
    if ms == [] then [] else Frames(ms[..|ms| - 1]) + Frame(ms[|ms| - 1])
  }

  // ----- reading -----

  datatype ReadError = ShortHeader | TooLarge | ShortPayload

  datatype ReadResult = Read(msg: Message, rest: seq<Byte>) | Failed(error: ReadError)

  /** ReadMessage on what is left of a stream that will not grow. */
  function ReadOne(s: seq<Byte>): ReadResult {
    if |s| < HEADER then Failed(ShortHeader) else
    var len := BE(s[9..13]);
    if len > MAX_MESSAGE_SIZE then Failed(TooLarge)
    else if |s| < HEADER + len then Failed(ShortPayload)
    else Read(Message(s[0], BE(s[1..9]), s[HEADER..HEADER + len]), s[HEADER + len..])
  }

  /** A read loop: messages until the first error. */
  function ReadAll(s: seq<Byte>): (r: (seq<Message>, ReadError))
    decreases |s|
  {
    match ReadOne(s)
    case Failed(error) => ([], error)
    case Read(m, rest) => ([m] + ReadAll(rest).0, ReadAll(rest).1)
  }

  lemma ReadsFrame(m: Message, rest: seq<Byte>)
    requires Sendable(m)
    ensures ReadOne(Frame(m) + rest) == Read(m, rest)
  {
    var s := Frame(m) + rest;
    var p := |m.payload|;
    assert Pow256(4) == 0x1_0000_0000 by { PowFour(); }
    BEOfBEBytes(m.id, 8);
    BEOfBEBytes(p, 4);
    assert s[1..9] == BEBytes(m.id, 8) && s[9..13] == BEBytes(p, 4);
    assert s[HEADER..HEADER + p] == m.payload && s[HEADER + p..] == rest;
  }

  /** A frame on the wire: the type, eight bytes of ID and four of length, big-endian, then the payload. */
  lemma FrameLayout(m: Message)
    requires Sendable(m)
    ensures var f := Frame(m);
            && |f| == 13 + |m.payload| && f[0] == m.typ && BE(f[1..9]) == m.id && BE(f[9..13]) == |m.payload|
            && f[13..] == m.payload
  {
    var f := Frame(m);
    assert Pow256(4) == 0x1_0000_0000 by { PowFour(); }
    BEOfBEBytes(m.id, 8);
    BEOfBEBytes(|m.payload|, 4);
    assert f[1..9] == BEBytes(m.id, 8) && f[9..13] == BEBytes(|m.payload|, 4);
  }

  lemma PowFour()
    ensures Pow256(4) == 0x1_0000_0000
  {
    assert Pow256(1) == 256;
    assert Pow256(2) == 0x1_0000;
    assert Pow256(3) == 0x100_0000;
  }

  /** A frame cut short is an error, never a message. */
  lemma CutFrameFails(m: Message, n: nat)
    requires Sendable(m) && n < |Frame(m)|
    ensures ReadOne(Frame(m)[..n]) == Failed(if n < HEADER then ShortHeader else ShortPayload)
  {
    var s := Frame(m)[..n];
    if n >= HEADER {
      assert Pow256(4) == 0x1_0000_0000 by { PowFour(); }
      BEOfBEBytes(|m.payload|, 4);
      assert s[9..13] == BEBytes(|m.payload|, 4);
    }
  }

  lemma FramesCons(ms: seq<Message>)
    requires ms != []
    ensures Frames(ms) == Frame(ms[0]) + Frames(ms[1..])
  {
    if |ms| > 1 {
      var init := ms[..|ms| - 1];
      FramesCons(init);
      assert ms[1..][..|ms| - 2] == init[1..];
    } else {
      assert ms[..0] == [] && ms[1..] == [];
    }
  }

  lemma ReadAllStep(s: seq<Byte>, m: Message, rest: seq<Byte>)
    requires ReadOne(s) == Read(m, rest)
    ensures ReadAll(s) == ([m] + ReadAll(rest).0, ReadAll(rest).1)
  {
  }

  /** Wherever the stream of sent messages is cut, a read loop returns a prefix of them, in order and
      whole, and then an error; on an uncut stream it returns all of them. */
  lemma {:induction false} ReadAllOfPrefix(ms: seq<Message>, n: nat)
    requires (forall i :: 0 <= i < |ms| ==> Sendable(ms[i])) && n <= |Frames(ms)|
    ensures ReadAll(Frames(ms)[..n]).0 <= ms
    ensures ReadAll(Frames(ms)[..n]).1 != TooLarge
    ensures n == |Frames(ms)| ==> ReadAll(Frames(ms)[..n]) == (ms, ShortHeader)
    decreases |ms|
  {
    var s := Frames(ms)[..n];
    if ms == [] {
      assert s == [];
    } else {
      hide ReadAll, ReadOne, Frames, Frame, Sendable;
      var f := Frame(ms[0]);
      FramesCons(ms);
      CutConcat(f, Frames(ms[1..]), n);
      if n < |f| {
        CutFrameFails(ms[0], n);
        ReadAllFails(s);
      } else {
        var rest := Frames(ms[1..])[..n - |f|];
        ReadsFrame(ms[0], rest);
        ReadAllStep(s, ms[0], rest);
        ReadAllOfPrefix(ms[1..], n - |f|);
        PrefixCons(ms, ReadAll(rest).0);
      }
    }
  }

  lemma CutConcat(f: seq<Byte>, g: seq<Byte>, n: nat)
    requires n <= |f| + |g|
    ensures (f + g)[..n] == if n < |f| then f[..n] else f + g[..n - |f|]
  {
  }

  lemma ReadAllFails(s: seq<Byte>)
    requires ReadOne(s).Failed?
    ensures ReadAll(s) == ([], ReadOne(s).error)
  {
  }

  lemma PrefixCons(ms: seq<Message>, tail: seq<Message>)
    requires ms != [] && tail <= ms[1..]
    ensures [ms[0]] + tail <= ms
    ensures tail == ms[1..] ==> [ms[0]] + tail == ms
  {
  }

  // ----- concurrent writers -----

  /** Where a caller of Send or SendMessage is; Broken off means WriteMessage is about to return an error. */
  datatype Writer = Idle | Waiting(m: Message) | HeaderNext(m: Message) | PayloadNext(m: Message) | Unlocking

  /** One direction of the connection: order lists the messages whose header was started, in lock order. */
  datatype Wire = Wire(
    writers: map<nat, Writer>,
    lock: Option<nat>,
    stream: seq<Byte>,
    order: seq<Message>,
    broken: bool)

  /** n is how many bytes the connection accepts; fewer than offered is an error that breaks it. */
  datatype Event =
    | Call(w: nat, m: Message)
    | Lock(w: nat)
    | WriteHeader(w: nat, n: nat)
    | WritePayload(w: nat, n: nat)
    | Unlock(w: nat)

  function At(s: Wire, w: nat): Writer {
    if w in s.writers then s.writers[w] else Idle
  }

  predicate Enabled(s: Wire, e: Event) {
    match e
    case Call(w, m) => At(s, w) == Idle && m.id < Pow256(8)
    case Lock(w) => At(s, w).Waiting? && s.lock == None
    case WriteHeader(w, n) => At(s, w).HeaderNext? && n <= HEADER && (s.broken ==> n == 0)
    case WritePayload(w, n) => At(s, w).PayloadNext? && n <= |At(s, w).m.payload| && (s.broken ==> n == 0)
    case Unlock(w) => At(s, w) == Unlocking
  }

  function Go(s: Wire, w: nat, pc: Writer): Wire {
    s.(writers := s.writers[w := pc])
  }

  function Step(s: Wire, e: Event): Wire
    requires Enabled(s, e)
  {
    match e
    case Call(w, m) => Go(s, w, Waiting(m))
    case Lock(w) => Go(s, w, HeaderNext(s.writers[w].m)).(lock := Some(w))
    case WriteHeader(w, n) =>
      var m := s.writers[w].m;
      if |m.payload| > MAX_MESSAGE_SIZE then Go(s, w, Unlocking)
      else if n < HEADER then
        Go(s, w, Unlocking).(stream := s.stream + Header(m)[..n], broken := true,
                             order := if s.broken then s.order else s.order + [m])
      else Go(s, w, if m.payload == [] then Unlocking else PayloadNext(m)).(
               stream := s.stream + Header(m), order := s.order + [m])
    case WritePayload(w, n) =>
      var m := s.writers[w].m;
      Go(s, w, Unlocking).(stream := s.stream + m.payload[..n], broken := s.broken || n < |m.payload|)
    case Unlock(w) => Go(s, w, Idle).(lock := None)
  }

  predicate InSection(pc: Writer) {
    pc.HeaderNext? || pc.PayloadNext? || pc.Unlocking?
  }

  ghost predicate Exclusive(s: Wire) {
    forall w: nat :: InSection(At(s, w)) ==> s.lock == Some(w)
  }

  ghost predicate IdsFit(s: Wire) {
    && (forall w: nat :: At(s, w).Waiting? || At(s, w).HeaderNext? ==> At(s, w).m.id < Pow256(8))
    && (forall i :: 0 <= i < |s.order| ==> Sendable(s.order[i]))
  }

  /** The stream is the frames in lock order, but for the part the lock holder has still to write, or
      that a broken connection never took. */
  ghost predicate Framed(s: Wire) {
    && s.stream <= Frames(s.order)
    && (!s.broken ==>
         if s.lock.Some? && At(s, s.lock.value).PayloadNext? then
           && s.order != [] && s.order[|s.order| - 1] == At(s, s.lock.value).m
           && s.stream == Frames(s.order[..|s.order| - 1]) + Header(At(s, s.lock.value).m)
         else s.stream == Frames(s.order))
  }

  ghost predicate WireInv(s: Wire) {
    Exclusive(s) && IdsFit(s) && Framed(s)
  }

  lemma StepKeepsExclusive(s: Wire, e: Event)
    requires Exclusive(s) && Enabled(s, e)
    ensures Exclusive(Step(s, e))
  {
    hide Header, Pow256;
  }

  lemma StepKeepsIds(s: Wire, e: Event)
    requires IdsFit(s) && Enabled(s, e)
    ensures IdsFit(Step(s, e))
  {
    hide Header, Pow256;
    var next := Step(s, e);
    forall w: nat | At(next, w).Waiting? || At(next, w).HeaderNext? ensures At(next, w).m.id < Pow256(8) {
      assert e.Lock? ==> At(s, e.w).m.id < Pow256(8);
      assert w != e.w ==> At(next, w) == At(s, w);
    }
    if e.WriteHeader? && |At(s, e.w).m.payload| <= MAX_MESSAGE_SIZE {
      assert Sendable(At(s, e.w).m);
    }
  }

  lemma FramesSnoc(ms: seq<Message>, m: Message)
    ensures Frames(ms + [m]) == Frames(ms) + Header(m) + m.payload
  {
    assert (ms + [m])[..|ms|] == ms;
    assert Frames(ms) + (Header(m) + m.payload) == Frames(ms) + Header(m) + m.payload;
  }

  lemma StepKeepsFramed(s: Wire, e: Event)
    requires Exclusive(s) && IdsFit(s) && Framed(s) && Enabled(s, e)
    ensures Framed(Step(s, e))
  {
    hide Frames, Header, Pow256, Sendable;
    match e
    case WriteHeader(w, n) =>
      var m := s.writers[w].m;
      FramesSnoc(s.order, m);
    case WritePayload(w, n) =>
      var m := s.writers[w].m;
      if !s.broken {
        var init := s.order[..|s.order| - 1];
        assert s.order == init + [m];
        FramesSnoc(init, m);
      }
    case _ =>
  }

  ghost predicate Moves(s: Wire, next: Wire) {
    exists e :: Enabled(s, e) && next == Step(s, e)
  }

  ghost predicate Execution(ss: seq<Wire>) {
    && ss != [] && ss[0] == Wire(map[], None, [], [], false)
    && forall i :: 0 <= i < |ss| - 1 ==> Moves(ss[i], ss[i + 1])
  }

  lemma {:induction false} ExecutionKeepsInv(ss: seq<Wire>, i: nat)
    requires Execution(ss) && i < |ss|
    ensures WireInv(ss[i])
  {
    hide Exclusive, IdsFit, Framed, Step, Enabled;
    if i == 0 {
      InitInv();
    } else {
      ExecutionKeepsInv(ss, i - 1);
      assert Moves(ss[i - 1], ss[i - 1 + 1]);
      var e :| Enabled(ss[i - 1], e) && ss[i] == Step(ss[i - 1], e);
      StepKeepsExclusive(ss[i - 1], e);
      StepKeepsIds(ss[i - 1], e);
      StepKeepsFramed(ss[i - 1], e);
    }
  }

  lemma InitInv()
    ensures WireInv(Wire(map[], None, [], [], false))
  {
  }

  /** However writers interleave, at most one is inside WriteMessage. */
  lemma OneWriterAtATime(ss: seq<Wire>, i: nat, v: nat, w: nat)
    requires Execution(ss) && i < |ss| && InSection(At(ss[i], v)) && InSection(At(ss[i], w))
    ensures v == w
  {
    hide Execution;
    ExecutionKeepsInv(ss, i);
  }

  /** However writers interleave and wherever the reader's view of the stream ends, a read loop returns a
      prefix of the sent messages in lock order and never an invented one; when nobody is writing and the
      connection has not failed, it returns them all. */
  lemma ReadersSeeLockOrder(ss: seq<Wire>, i: nat, n: nat)
    requires Execution(ss) && i < |ss| && n <= |ss[i].stream|
    ensures ReadAll(ss[i].stream[..n]).0 <= ss[i].order
    ensures ReadAll(ss[i].stream[..n]).1 != TooLarge
    ensures n == |ss[i].stream| && ss[i].lock == None && !ss[i].broken ==>
              ReadAll(ss[i].stream) == (ss[i].order, ShortHeader)
  {
    hide Execution, Frames, ReadAll, Exclusive, Sendable;
    ExecutionKeepsInv(ss, i);
    var s := ss[i];
    assert s.stream[..n] == Frames(s.order)[..n];
    assert s.stream[..|s.stream|] == s.stream;
    ReadAllOfPrefix(s.order, n);
  }

  // ----- the procedures -----

  /** A connection seen from one end: the bytes written so far, or left to read. */
  class Stream {
    var bytes: seq<Byte>

    constructor (bytes: seq<Byte>)
      ensures this.bytes == bytes
    {
      this.bytes := bytes;
    }

    method Write(data: seq<Byte>)
      modifies this
      ensures bytes == old(bytes) + data
    {
      bytes := bytes + data;
    }

    /** io.ReadFull: all the bytes asked for, or an error that swallows what there was. */
    method ReadFull(n: nat) returns (data: Option<seq<Byte>>)
      modifies this
      ensures n <= |old(bytes)| ==> data == Some(old(bytes)[..n]) && bytes == old(bytes)[n..]
      ensures n > |old(bytes)| ==> data == None && bytes == []
    {
      if n <= |bytes| {
        data := Some(bytes[..n]);
        bytes := bytes[n..];
      } else {
        data, bytes := None, [];
      }
    }
  }

  /** binary.BigEndian.PutUint into k bytes of a buffer. */
  method PutBigEndian(buf: array<Byte>, at: nat, n: nat, k: nat)
    requires at + k <= buf.Length
    modifies buf
    ensures buf[at..at + k] == BEBytes(n, k)
    ensures forall j :: 0 <= j < buf.Length && !(at <= j < at + k) ==> buf[j] == old(buf[j])
  {
    var i, v := k, n;
    while i > 0
      invariant 0 <= i <= k
      invariant BEBytes(n, k) == BEBytes(v, i) + buf[at + i..at + k]
      invariant forall j :: 0 <= j < buf.Length && !(at + i <= j < at + k) ==> buf[j] == old(buf[j])
    {
      i := i - 1;
      ghost var tail := buf[at + i + 1..at + k];
      buf[at + i] := v % 256;
      assert buf[at + i..at + k] == [v % 256] + tail;
      v := v / 256;
    }
  }

  method WriteMessage(w: Stream, m: Message) returns (ok: bool)
    requires m.id < Pow256(8)
    modifies w
    ensures ok <==> Sendable(m)
    ensures w.bytes == if ok then old(w.bytes) + Frame(m) else old(w.bytes)
  {
    if |m.payload| > MAX_MESSAGE_SIZE {
      return false;
    }
    var header := new Byte[HEADER](i => 0);
    header[0] := m.typ;
    PutBigEndian(header, 1, m.id, 8);
    assert header[1..9] == BEBytes(m.id, 8);
    ghost var ids := header[1..9];
    PutBigEndian(header, 9, |m.payload|, 4);
    assert header[..] == [header[0]] + header[1..9] + header[9..13];
    assert header[1..9] == ids;
    w.Write(header[..]);
    if |m.payload| > 0 {
      w.Write(m.payload);
    }
    return true;
  }

  /** ReadMessage takes one message off the stream, exactly as ReadOne says. */
  method ReadMessage(r: Stream) returns (result: ReadResult)
    modifies r
    ensures ReadOne(old(r.bytes)).Read? ==> result == ReadOne(old(r.bytes)) && r.bytes == result.rest
    ensures ReadOne(old(r.bytes)).Failed? ==> result == ReadOne(old(r.bytes))
  {
    ghost var s := r.bytes;
    var header := r.ReadFull(HEADER);
    if header == None {
      return Failed(ShortHeader);
    }
    assert header.value[1..9] == s[1..9] && header.value[9..13] == s[9..13];
    var len := BE(header.value[9..13]);
    if len > MAX_MESSAGE_SIZE {
      return Failed(TooLarge);
    }
    var payload: seq<Byte> := [];
    if len > 0 {
      var data := r.ReadFull(len);
      if data == None {
        return Failed(ShortPayload);
      }
      payload := data.value;
    }
    assert s[HEADER..][..len] == s[HEADER..HEADER + len] && s[HEADER..][len..] == s[HEADER + len..];
    return Read(Message(header.value[0], BE(header.value[1..9]), payload), r.bytes);
  }

  // ----- messages can follow -----

  function Last(ss: seq<Wire>): Wire
    requires ss != []
  {
    ss[|ss| - 1]
  }

  lemma Extend(ss: seq<Wire>, e: Event) returns (next: seq<Wire>)
    requires ss != [] && Execution(ss) && Enabled(Last(ss), e)
    ensures next != [] && Execution(next) && ss <= next && Last(next) == Step(Last(ss), e)
  {
    next := ss + [Step(Last(ss), e)];
    hide Enabled, Step;
    assert Moves(Last(ss), Last(next));
    forall i | 0 <= i < |next| - 1 ensures Moves(next[i], next[i + 1]) {
      assert i < |ss| - 1 ==> Moves(ss[i], ss[i + 1]);
    }
  }

  /** The lock is taken and the header written. */
  lemma WritesHeader(ss: seq<Wire>, w: nat, m: Message) returns (next: seq<Wire>)
    requires ss != [] && Execution(ss) && Sendable(m)
    requires Last(ss).lock == None && !Last(ss).broken && At(Last(ss), w) == Idle
    ensures next != [] && Execution(next) && ss <= next && !Last(next).broken && Last(next).lock == Some(w)
    ensures Last(next).stream == Last(ss).stream + Header(m)
    ensures At(Last(next), w) == if m.payload == [] then Unlocking else PayloadNext(m)
  {
    hide Execution, Header, Pow256;
    next := Extend(ss, Call(w, m));
    next := Extend(next, Lock(w));
    next := Extend(next, WriteHeader(w, HEADER));
  }

  /** Wherever an execution stands with the lock free and the connection whole, any idle writer can send any
      message: its frame follows on the stream, and lock and writer are free again. */
  lemma AnyMessageCanFollow(ss: seq<Wire>, w: nat, m: Message) returns (next: seq<Wire>)
    requires ss != [] && Execution(ss) && Sendable(m)
    requires Last(ss).lock == None && !Last(ss).broken && At(Last(ss), w) == Idle
    ensures next != [] && Execution(next) && ss <= next
    ensures Last(next).stream == Last(ss).stream + Frame(m)
    ensures Last(next).lock == None && !Last(next).broken && At(Last(next), w) == Idle
  {
    hide Execution, Header, Sendable;
    next := WritesHeader(ss, w, m);
    if m.payload != [] {
      next := Extend(next, WritePayload(w, |m.payload|));
      assert m.payload[..|m.payload|] == m.payload;
    }
    next := Extend(next, Unlock(w));
    assert Last(ss).stream + Header(m) + m.payload == Last(ss).stream + (Header(m) + m.payload);
  }
}
