/** One serialised RPC client and the servers of its connections: the FUSE client (internal/linuxfuse), which drops a
    connection after any error, and the adapter's session (internal/adapter), which keeps it. A state machine over
    every interleaving of calls, servers and connection failures. */
module RpcPairing {
  import opened Bytes
  import opened Fields
  import opened Protocol
  import R = Responses

  datatype Client = Fuse | Adapter

  datatype Call = Call(id: nat, q: Request)

  /** One request executed by a server, and what it answered. */
  datatype Entry = Entry(q: Request, p: Response)

  /** A connection: the bytes on their way in each direction, whether the path still carries new ones, whether a read
      or a write on it has failed, every call whose sending began on it, every request its server executed, and how
      many replies were read. */
  datatype Conn = Conn(up: bytes, down: bytes, live: bool, readable: bool, writable: bool, sent: seq<Call>,
                       served: seq<Entry>, read: nat)

  const DIALED := Conn([], [], true, true, true, [], [], 0)

  /** Who holds the client's mutex. */
  datatype Holder = Idle | Sending(call: Call, rest: bytes) | Waiting(call: Call)

  /** A finished call: its reply, or nothing for EIO; `conn` and `at` say where the reply came from. */
  datatype Done = Done(call: Call, reply: Option<Response>, conn: nat, at: nat)

  datatype State = State(conns: seq<Conn>, current: Option<nat>, holder: Holder, nextId: nat, done: seq<Done>)

  const START := State([], None, Idle, 0, [])

  datatype Step =
    | Dial
    | DialFails(q: Request)
    | Begin(q: Request)
    | Write(k: nat)
    | SendEnds
    | SendFails
    | ReplyArrives
    | ReadFails
    | Serve(i: nat, p: Response)
    | Garbled(i: nat)
    | Break(i: nat, ku: nat, kd: nat)

  function Current(s: State): Conn
    requires s.current.Some? && s.current.value < |s.conns|
  {
    s.conns[s.current.value]
  }

  predicate Connected(s: State) { s.current.Some? && s.current.value < |s.conns| }

  function WithCurrent(s: State, c: Conn): State
    requires Connected(s)
  {
    s.(conns := s.conns[s.current.value := c])
  }

  predicate Enabled(s: State, step: Step) {
    match step
    case Dial => s.holder.Idle? && s.current.None?
    case DialFails(_) => s.holder.Idle? && s.current.None?
    case Begin(_) => s.holder.Idle? && Connected(s)
    case Write(k) => s.holder.Sending? && Connected(s) && 0 < k <= |s.holder.rest|
    case SendEnds => s.holder.Sending? && s.holder.rest == []
    case SendFails => s.holder.Sending? && Connected(s) && !Current(s).live
    case ReplyArrives =>
      s.holder.Waiting? && Connected(s) && Current(s).readable && ParseFrame(Current(s).down).Body?
    case ReadFails =>
      && s.holder.Waiting? && Connected(s)
      && (!Current(s).readable || (!Current(s).live && !ParseFrame(Current(s).down).Body?))
    case Serve(i, _) =>
      && i < |s.conns| && ParseFrame(s.conns[i].up).Body?
      && DecodeRequest(ParseFrame(s.conns[i].up).body).Some?
    case Garbled(i) =>
      && i < |s.conns| && ParseFrame(s.conns[i].up).Body?
      && DecodeRequest(ParseFrame(s.conns[i].up).body).None?
    case Break(i, ku, kd) => i < |s.conns| && ku <= |s.conns[i].up| && kd <= |s.conns[i].down|
  }

  /** The client gives up on its connection: the FUSE client closes it, the adapter only stops reading or writing. */
  function Abandon(kind: Client, s: State, c: Conn): State
    requires Connected(s)
  {
    if kind.Fuse? then
      WithCurrent(s, c.(live := false, readable := false, writable := false, down := [])).(current := None)
    else WithCurrent(s, c)
  }

  function Finish(s: State, call: Call, reply: Option<Response>, conn: nat, at: nat): State {
    s.(holder := Idle, done := s.done + [Done(call, reply, conn, at)])
  }

  function Apply(kind: Client, s: State, step: Step): State
    requires Enabled(s, step)
  {
    match step
    case Dial => s.(conns := s.conns + [DIALED], current := Some(|s.conns|))
    case DialFails(q) => Finish(s.(nextId := s.nextId + 1), Call(s.nextId, q), None, 0, 0)
    case Begin(q) =>
      var call, c := Call(s.nextId, q), Current(s);
      var t := s.(nextId := s.nextId + 1);
      if !Protocol.Sendable(q) || !c.writable then Finish(Abandon(kind, t, c), call, None, 0, 0)
      else WithCurrent(t, c.(sent := c.sent + [call])).(holder := Sending(call, RequestFrame(q)))
    case Write(k) =>
      var c := Current(s);
      WithCurrent(s, if c.live then c.(up := c.up + s.holder.rest[..k]) else c)
        .(holder := Sending(s.holder.call, s.holder.rest[k..]))
    case SendEnds => s.(holder := Waiting(s.holder.call))
    case SendFails => Finish(Abandon(kind, s, Current(s).(writable := false)), s.holder.call, None, 0, 0)
    case ReplyArrives =>
      var c := Current(s);
      var f := ParseFrame(c.down);
      var p := R.DecodeResponse(s.holder.call.q.op, f.body);
      var t := if p.Some? then WithCurrent(s, c.(down := f.rest, read := c.read + 1))
               else Abandon(kind, s, c.(down := f.rest, read := c.read + 1));
      Finish(t, s.holder.call, p, s.current.value, c.read)
    case ReadFails =>
      Finish(Abandon(kind, s, Current(s).(readable := false, down := [])), s.holder.call, None, 0, 0)
    case Serve(i, p) =>
      var c := s.conns[i];
      var f := ParseFrame(c.up);
      var q := DecodeRequest(f.body).value;
      s.(conns := s.conns[i := Answered(c.(up := f.rest), q, p)])
    case Garbled(i) => s.(conns := s.conns[i := s.conns[i].(live := false, up := [])])
    case Break(i, ku, kd) =>
      var c := s.conns[i];
      s.(conns := s.conns[i := c.(live := false, up := c.up[..ku], down := c.down[..kd])])
  }

  /** A server has executed `q`: its reply goes out, unless it fits no frame, which ends the connection. */
  function Answered(c: Conn, q: Request, p: Response): Conn {
    var c' := c.(served := c.served + [Entry(q, p)]);
    if !R.Sendable(q.op, p) then c'.(live := false)
    else if c.live then c'.(down := c.down + R.ResponseFrame(q.op, p))
    else c'
  }

  ghost predicate IsRun(kind: Client, states: seq<State>, steps: seq<Step>) {
    && |states| == |steps| + 1
    && states[0] == START
    && forall i :: 0 <= i < |steps| ==>
         Enabled(states[i], steps[i]) && states[i + 1] == Apply(kind, states[i], steps[i])
  }

  // ---- what every step keeps ---------------------------------------------------------------------------

  function CallBytes(calls: seq<Call>): bytes {
    if calls == [] then [] else RequestFrame(calls[0].q) + CallBytes(calls[1..])
  }

  function ReplyBytes(es: seq<Entry>): bytes {
    if es == [] || !R.Sendable(es[0].q.op, es[0].p) then []
    else R.ResponseFrame(es[0].q.op, es[0].p) + ReplyBytes(es[1..])
  }

  /** The k-th request executed on a connection is the k-th call sent on it. */
  ghost predicate Matched(c: Conn) {
    && |c.served| <= |c.sent|
    && (forall k :: 0 <= k < |c.served| ==> c.served[k].q == Relevant(c.sent[k].q))
    && (forall k :: 0 <= k < |c.sent| ==> Protocol.Sendable(c.sent[k].q))
  }

  /** What is on its way to the server is, with the sender's unwritten rest, the calls it has not executed yet; after a
      failure, a prefix of that. */
  ghost predicate UpInv(c: Conn, rest: bytes) {
    && Matched(c)
    && (c.live ==> c.up + rest == CallBytes(c.sent[|c.served|..]))
    && c.up <= CallBytes(c.sent[|c.served|..])
  }

  ghost predicate AllSendable(es: seq<Entry>) {
    forall k :: 0 <= k < |es| ==> R.Sendable(es[k].q.op, es[k].p)
  }

  ghost predicate DownInv(c: Conn) {
    && c.read <= |c.served|
    && c.down <= ReplyBytes(c.served[c.read..])
    && (c.live ==> c.down == ReplyBytes(c.served[c.read..]) && AllSendable(c.served[c.read..]))
  }

  /** What the mutex holder still has to write on connection `i`. */
  function RestOn(s: State, i: nat): bytes {
    if s.current == Some(i) && s.holder.Sending? then s.holder.rest else []
  }

  ghost predicate ConnInv(s: State, i: nat)
    requires i < |s.conns|
  {
    UpInv(s.conns[i], RestOn(s, i)) && DownInv(s.conns[i]) && LossInv(s.conns[i])
  }

  /** A connection on which a read or a write failed carries nothing new. */
  predicate LossInv(c: Conn) { c.live ==> c.readable && c.writable }

  /** On the connection in use, at most the holder's own call is unanswered. */
  ghost predicate TurnInv(s: State) {
    && (s.current.Some? ==> Connected(s))
    && (!s.holder.Idle? ==>
          && Connected(s) && Current(s).writable
          && Current(s).sent != [] && Current(s).sent[|Current(s).sent| - 1] == s.holder.call)
    && (Connected(s) && Current(s).readable && Current(s).writable ==>
          |Current(s).sent| == Current(s).read + if s.holder.Idle? then 0 else 1)
  }

  /** Every call sent, by connection. */
  function Sent(s: State): seq<seq<Call>> { seq(|s.conns|, i requires 0 <= i < |s.conns| => s.conns[i].sent) }

  /** No call was sent twice, on one connection or on two. */
  ghost predicate Distinct(sent: seq<seq<Call>>) {
    forall i, k, j, l :: 0 <= i < |sent| && 0 <= k < |sent[i]| && 0 <= j < |sent| && 0 <= l < |sent[j]| ==>
      (sent[i][k].id == sent[j][l].id ==> i == j && k == l)
  }

  ghost predicate IdsBelow(sent: seq<seq<Call>>, n: nat) {
    forall i, k :: 0 <= i < |sent| && 0 <= k < |sent[i]| ==> sent[i][k].id < n
  }

  ghost predicate Numbered(s: State) { Distinct(Sent(s)) && IdsBelow(Sent(s), s.nextId) }

  /** A reply that was returned is the one its own connection's server gave to that very call. */
  ghost predicate Answers(s: State, d: Done) {
    d.reply.Some? ==>
      && d.conn < |s.conns| && d.at < |s.conns[d.conn].served| && d.at < |s.conns[d.conn].sent|
      && s.conns[d.conn].sent[d.at] == d.call
      && s.conns[d.conn].served[d.at].q == Relevant(d.call.q)
      && d.reply == Some(R.Delivered(d.call.q.op, s.conns[d.conn].served[d.at].p))
  }

  ghost predicate AllConns(s: State) { forall i :: 0 <= i < |s.conns| ==> ConnInv(s, i) }

  ghost predicate AllAnswer(s: State) { forall k :: 0 <= k < |s.done| ==> Answers(s, s.done[k]) }

  ghost predicate Inv(s: State) { AllConns(s) && TurnInv(s) && Numbered(s) && AllAnswer(s) }

  // ---- frames at the front of a queue ------------------------------------------------------------------

  /** A frame parsed off a prefix of "one frame and more" is that frame. */
  lemma FrameInPrefix(body: bytes, more: bytes, b: bytes)
    requires |body| <= MAX_FRAME && b <= Frame(body) + more && ParseFrame(b).Body?
    ensures Frame(body) <= b && ParseFrame(b) == Body(body, b[|Frame(body)|..])
    ensures b[|Frame(body)|..] <= more
  {
    hide ParseFrame, Frame;
    if b == Frame(body) + more {
      FrameRoundTrip(body, more);
    } else {
      StrictPrefixOfConcat(b, Frame(body), more);
      if b < Frame(body) {
        FrameTruncated(body, b);
      } else {
        FrameRoundTrip(body, b[|Frame(body)|..]);
      }
    }
  }

  lemma FirstCall(calls: seq<Call>, b: bytes)
    requires b <= CallBytes(calls) && ParseFrame(b).Body?
    requires forall k :: 0 <= k < |calls| ==> Protocol.Sendable(calls[k].q)
    ensures calls != [] && DecodeRequest(ParseFrame(b).body) == Some(Relevant(calls[0].q))
    ensures ParseFrame(b).rest <= CallBytes(calls[1..])
    ensures b == RequestFrame(calls[0].q) + ParseFrame(b).rest
  {
    hide ParseFrame, DecodeRequest, Relevant, EncFields, RequestFields, Frame, CallBytes;
    NoFrameInNothing(b);
    CallBytesStep(calls);
    if calls != [] {
      var q := calls[0].q;
      assert Protocol.Sendable(q);
      FrameInPrefix(EncFields(RequestFields(q)), CallBytes(calls[1..]), b);
      RequestFrameRoundTrip(q, []);
    }
  }

  lemma CallBytesStep(calls: seq<Call>)
    ensures CallBytes(calls) == if calls == [] then [] else RequestFrame(calls[0].q) + CallBytes(calls[1..])
  {
  }

  lemma NoFrameInNothing(b: bytes)
    ensures ParseFrame(b).Body? ==> b != []
  {
  }

  lemma FirstReply(es: seq<Entry>, b: bytes)
    requires b <= ReplyBytes(es) && ParseFrame(b).Body?
    ensures es != [] && R.DecodeResponse(es[0].q.op, ParseFrame(b).body) == Some(R.Delivered(es[0].q.op, es[0].p))
    ensures ParseFrame(b).rest <= ReplyBytes(es[1..])
  {
    hide ParseFrame, R.DecodeResponse, R.Delivered, EncFields, R.ResponseFields, Frame;
    if es == [] || !R.Sendable(es[0].q.op, es[0].p) {
      NoFrameInNothing(b);
    } else {
      FrameInPrefix(EncFields(R.ResponseFields(es[0].q.op, es[0].p)), ReplyBytes(es[1..]), b);
      R.ResponseFrameRoundTrip(es[0].q.op, es[0].p, []);
    }
  }

  lemma {:induction false} CallBytesGrow(calls: seq<Call>, call: Call)
    ensures CallBytes(calls + [call]) == CallBytes(calls) + RequestFrame(call.q)
  {
    hide RequestFrame;
    if calls == [] {
      assert (calls + [call])[1..] == [];
    } else {
      assert (calls + [call])[1..] == calls[1..] + [call];
      CallBytesGrow(calls[1..], call);
    }
  }

  /** A further reply only adds to the bytes to come. */
  lemma {:induction false} ReplyBytesGrow(es: seq<Entry>, e: Entry)
    ensures ReplyBytes(es) <= ReplyBytes(es + [e])
    ensures AllSendable(es) ==> ReplyBytes(es + [e]) == ReplyBytes(es) + ReplyBytes([e])
  {
    hide R.ResponseFrame, R.Sendable;
    if es == [] {
      assert es + [e] == [e];
    } else {
      assert (es + [e])[1..] == es[1..] + [e];
      ReplyBytesGrow(es[1..], e);
    }
  }

  // ---- every step keeps the invariant ------------------------------------------------------------------

  lemma UpAfterWrite(c: Conn, rest: bytes, k: nat)
    requires UpInv(c, rest) && k <= |rest|
    ensures UpInv(if c.live then c.(up := c.up + rest[..k]) else c, rest[k..])
  {
    hide CallBytes, Relevant, Protocol.Sendable;
    assert c.up + rest[..k] + rest[k..] == c.up + rest;
  }

  lemma UpAfterBegin(c: Conn, call: Call)
    requires UpInv(c, []) && Protocol.Sendable(call.q)
    ensures UpInv(c.(sent := c.sent + [call]), RequestFrame(call.q))
  {
    hide CallBytes, RequestFrame, Protocol.Sendable;
    var todo := c.sent[|c.served|..];
    CallBytesGrow(todo, call);
    assert (c.sent + [call])[|c.served|..] == todo + [call];
    assert c.up + [] == c.up;
  }

  lemma UpAfterServe(c: Conn, rest: bytes, p: Response)
    requires UpInv(c, rest) && ParseFrame(c.up).Body? && DecodeRequest(ParseFrame(c.up).body).Some?
    ensures var f := ParseFrame(c.up);
            UpInv(Answered(c.(up := f.rest), DecodeRequest(f.body).value, p), rest)
  {
    hide CallBytes, ParseFrame, DecodeRequest, RequestFrame, Protocol.Sendable, R.Sendable, R.ResponseFrame, Relevant;
    var f, todo := ParseFrame(c.up), c.sent[|c.served|..];
    FirstCall(todo, c.up);
    CallBytesStep(todo);
    assert c.sent[|c.served| + 1..] == todo[1..];
    assert c.live ==> f.rest + rest == CallBytes(todo[1..]) by {
      if c.live {
        assert RequestFrame(todo[0].q) + f.rest + rest == RequestFrame(todo[0].q) + CallBytes(todo[1..]);
        SameTail(RequestFrame(todo[0].q), f.rest + rest, CallBytes(todo[1..]));
      }
    }
  }

  lemma SameTail(a: bytes, b: bytes, c: bytes)
    requires a + b == a + c
    ensures b == c
  {
    assert (a + b)[|a|..] == b && (a + c)[|a|..] == c;
  }

  lemma DownAfterServe(c: Conn, up: bytes, q: Request, p: Response)
    requires DownInv(c)
    ensures DownInv(Answered(c.(up := up), q, p))
  {
    hide R.Sendable, R.ResponseFrame, ReplyBytes;
    var es, e := c.served[c.read..], Entry(q, p);
    ReplyBytesGrow(es, e);
    assert (c.served + [e])[c.read..] == es + [e];
    assert R.Sendable(q.op, p) ==> ReplyBytes([e]) == R.ResponseFrame(q.op, p) by {
      OneReply(e);
    }
  }

  lemma OneReply(e: Entry)
    ensures R.Sendable(e.q.op, e.p) ==> ReplyBytes([e]) == R.ResponseFrame(e.q.op, e.p)
  {
    hide R.Sendable, R.ResponseFrame;
    assert [e][1..] == [];
  }

  lemma UpAfterLoss(c: Conn, rest: bytes, up: bytes)
    requires UpInv(c, rest) && up <= c.up
    ensures UpInv(c.(live := false, up := up), rest)
  {
    hide CallBytes, Relevant, Protocol.Sendable;
  }

  lemma DownAfterLoss(c: Conn, down: bytes)
    requires DownInv(c) && down <= c.down
    ensures DownInv(c.(live := false, down := down))
  {
    hide ReplyBytes;
  }

  /** The reply at the front of what the client reads was given to the oldest unanswered call. */
  lemma ReplyFound(c: Conn, rest: bytes)
    requires UpInv(c, rest) && DownInv(c) && ParseFrame(c.down).Body?
    ensures c.read < |c.served| <= |c.sent|
    ensures c.served[c.read].q == Relevant(c.sent[c.read].q)
    ensures R.DecodeResponse(c.sent[c.read].q.op, ParseFrame(c.down).body)
         == Some(R.Delivered(c.sent[c.read].q.op, c.served[c.read].p))
    ensures DownInv(c.(down := ParseFrame(c.down).rest, read := c.read + 1))
  {
    hide ReplyBytes, CallBytes, ParseFrame, R.DecodeResponse, R.Delivered, Relevant, Protocol.Sendable;
    var es := c.served[c.read..];
    FirstReply(es, c.down);
    assert es[0] == c.served[c.read] && c.served[c.read + 1..] == es[1..];
    RelevantKeepsOp(c.sent[c.read].q);
    if c.live {
      ReadWhole(es, c.down);
    }
  }

  lemma RelevantKeepsOp(q: Request)
    ensures Relevant(q).op == q.op
  {
  }

  lemma ReadWhole(es: seq<Entry>, b: bytes)
    requires b == ReplyBytes(es) && AllSendable(es) && ParseFrame(b).Body?
    ensures es != [] && ParseFrame(b).rest == ReplyBytes(es[1..])
  {
    hide ParseFrame, EncFields, R.ResponseFields, Frame, R.DecodeResponse, R.Delivered;
    NoFrameInNothing(b);
    R.ResponseFrameRoundTrip(es[0].q.op, es[0].p, ReplyBytes(es[1..]));
  }

  // -- frames over the whole state

  /** Connections and calls only grow: nothing sent, executed or read is ever taken back. */
  ghost predicate Grew(c: Conn, c': Conn) { c.sent <= c'.sent && c.served <= c'.served }

  ghost predicate GrewAll(s: State, s': State) {
    |s.conns| <= |s'.conns| && forall i :: 0 <= i < |s.conns| ==> Grew(s.conns[i], s'.conns[i])
  }

  lemma AnswersStay(s: State, s': State, d: Done)
    requires Answers(s, d) && GrewAll(s, s')
    ensures Answers(s', d)
  {
    hide R.Delivered, Relevant;
    if d.reply.Some? {
      assert Grew(s.conns[d.conn], s'.conns[d.conn]);
    }
  }

  lemma StepGrows(kind: Client, s: State, step: Step)
    requires Enabled(s, step) && TurnInv(s)
    ensures GrewAll(s, Apply(kind, s, step))
  {
    hide ParseFrame, DecodeRequest, R.DecodeResponse, R.Sendable, R.ResponseFrame, Protocol.Sendable, RequestFrame;
  }

  /** Only the connection an event concerns changes, and only the mutex holder's rest of a frame on it. */
  ghost predicate Elsewhere(s: State, s': State, i: nat)
    requires i < |s.conns| && i < |s'.conns|
  {
    s'.conns[i] == s.conns[i] && RestOn(s', i) == RestOn(s, i)
  }

  lemma ConnStays(s: State, s': State, i: nat)
    requires i < |s.conns| && i < |s'.conns| && Elsewhere(s, s', i) && ConnInv(s, i)
    ensures ConnInv(s', i)
  {
  }

  lemma NothingOnDialed()
    ensures UpInv(DIALED, []) && DownInv(DIALED)
  {
  }

  /** Giving up on a connection loses only what was on its way. */
  lemma ConnAbandoned(c: Conn, rest: bytes, c': Conn)
    requires UpInv(c, rest) && DownInv(c)
    requires c' == c.(live := false, readable := false, writable := false, down := [])
             || (!c.live && (c' == c.(writable := false) || c' == c.(readable := false, down := [])))
    ensures UpInv(c', []) && DownInv(c') && LossInv(c')
  {
    hide CallBytes, ReplyBytes, Matched;
    UpAfterLoss(c, rest, c.up);
    DownAfterLoss(c, []);
    assert c'.sent == c.sent && c'.served == c.served && c'.up == c.up;
    MatchedStays(c, c');
  }

  lemma MatchedStays(c: Conn, c': Conn)
    requires Matched(c) && c'.sent == c.sent && c'.served == c.served
    ensures Matched(c')
  {
  }

  /** If only connection `j` changes, and keeps its invariant, all do. */
  lemma OneChanged(s: State, s': State, j: nat)
    requires AllConns(s) && j < |s.conns| == |s'.conns| && ConnInv(s', j)
    requires forall i :: 0 <= i < |s.conns| && i != j ==> Elsewhere(s, s', i)
    ensures AllConns(s')
  {
    hide ConnInv, Elsewhere;
    forall i | 0 <= i < |s'.conns|
      ensures ConnInv(s', i)
    {
      if i != j {
        ConnStays(s, s', i);
      }
    }
  }

  lemma KeepsConnsOnServer(kind: Client, s: State, step: Step)
    requires AllConns(s) && Enabled(s, step) && (step.Serve? || step.Garbled? || step.Break?)
    ensures AllConns(Apply(kind, s, step))
  {
    hide UpInv, DownInv, ParseFrame, DecodeRequest, Answered;
    var i := step.i;
    var c, rest := s.conns[i], RestOn(s, i);
    var s' := Apply(kind, s, step);
    assert ConnInv(s, i);
    match step
    case Serve(_, p) =>
      var f := ParseFrame(c.up);
      UpAfterServe(c, rest, p);
      DownAfterServe(c, f.rest, DecodeRequest(f.body).value, p);
      LossAfterServe(c.(up := f.rest), DecodeRequest(f.body).value, p);
      OneChanged(s, s', i);
    case Garbled(_) =>
      UpAfterLoss(c, rest, []);
      DownAfterLoss(c, c.down);
      DownIgnoresUp(c.(live := false, down := c.down), []);
      OneChanged(s, s', i);
    case Break(_, ku, kd) =>
      UpAfterLoss(c, rest, c.up[..ku]);
      UpIgnoresDown(c.(live := false, up := c.up[..ku]), rest, c.down[..kd]);
      DownAfterLoss(c, c.down[..kd]);
      DownIgnoresUp(c.(live := false, down := c.down[..kd]), c.up[..ku]);
      OneChanged(s, s', i);
  }

  lemma LossAfterServe(c: Conn, q: Request, p: Response)
    requires LossInv(c)
    ensures LossInv(Answered(c, q, p))
  {
    hide R.Sendable, R.ResponseFrame;
  }

  lemma DownIgnoresUp(c: Conn, up: bytes)
    requires DownInv(c)
    ensures DownInv(c.(up := up))
  {
    hide ReplyBytes;
  }

  lemma UpIgnoresDown(c: Conn, rest: bytes, down: bytes)
    requires UpInv(c, rest)
    ensures UpInv(c.(down := down), rest)
  {
    hide CallBytes, Relevant, Protocol.Sendable;
  }

  lemma KeepsConnsOnDial(kind: Client, s: State, step: Step)
    requires AllConns(s) && Enabled(s, step) && (step.Dial? || step.DialFails?)
    ensures AllConns(Apply(kind, s, step))
  {
    hide UpInv, DownInv;
    var s' := Apply(kind, s, step);
    NothingOnDialed();
    forall i | 0 <= i < |s'.conns|
      ensures ConnInv(s', i)
    {
      if i < |s.conns| {
        ConnStays(s, s', i);
      }
    }
  }

  lemma KeepsConnsOnSend(kind: Client, s: State, step: Step)
    requires AllConns(s) && Enabled(s, step) && TurnInv(s) && (step.Begin? || step.Write? || step.SendEnds?)
    ensures AllConns(Apply(kind, s, step))
  {
    hide UpInv, DownInv, Protocol.Sendable, RequestFrame;
    var s' := Apply(kind, s, step);
    var j := s.current.value;
    var c := s.conns[j];
    assert ConnInv(s, j);
    match step
    case Begin(q) =>
      if !Protocol.Sendable(q) || !c.writable {
        if kind.Fuse? {
          ConnAbandoned(c, [], c.(live := false, readable := false, writable := false, down := []));
        }
        OneChanged(s, s', j);
      } else {
        UpAfterBegin(c, Call(s.nextId, q));
        DownIgnoresSent(c, c.sent + [Call(s.nextId, q)]);
        OneChanged(s, s', j);
      }
    case Write(k) =>
      UpAfterWrite(c, s.holder.rest, k);
      DownIgnoresUp(c, c.up + s.holder.rest[..k]);
      OneChanged(s, s', j);
    case SendEnds => OneChanged(s, s', j);
  }

  lemma DownIgnoresSent(c: Conn, sent: seq<Call>)
    requires DownInv(c)
    ensures DownInv(c.(sent := sent))
  {
    hide ReplyBytes;
  }

  lemma KeepsConnsOnEnd(kind: Client, s: State, step: Step)
    requires AllConns(s) && Enabled(s, step) && TurnInv(s)
    requires step.SendFails? || step.ReadFails? || step.ReplyArrives?
    ensures AllConns(Apply(kind, s, step))
  {
    hide UpInv, DownInv, ParseFrame, R.DecodeResponse, R.Delivered, Relevant;
    var s' := Apply(kind, s, step);
    var j := s.current.value;
    var c := s.conns[j];
    assert ConnInv(s, j);
    match step
    case SendFails =>
      ConnAbandoned(c, RestOn(s, j), s'.conns[j]);
      OneChanged(s, s', j);
    case ReadFails =>
      ConnAbandoned(c, RestOn(s, j), s'.conns[j]);
      OneChanged(s, s', j);
    case ReplyArrives =>
      ReplyFound(c, []);
      OldestIsHolders(s);
      var f := ParseFrame(c.down);
      UpAfterRead(c, f.rest);
      OneChanged(s, s', j);
  }

  lemma UpAfterRead(c: Conn, down: bytes)
    requires UpInv(c, [])
    ensures UpInv(c.(down := down, read := c.read + 1), [])
  {
    hide CallBytes, Relevant, Protocol.Sendable;
  }

  /** When a reply can be read, the holder's call is the only one unanswered. */
  lemma OldestIsHolders(s: State)
    requires TurnInv(s) && s.holder.Waiting? && Connected(s) && Current(s).readable
    ensures |Current(s).sent| == Current(s).read + 1 && Current(s).sent[Current(s).read] == s.holder.call
  {
  }

  lemma KeepsConns(kind: Client, s: State, step: Step)
    requires AllConns(s) && Enabled(s, step) && TurnInv(s)
    ensures AllConns(Apply(kind, s, step))
  {
    hide AllConns, Enabled, TurnInv, Apply;
    match step
    case Serve(_, _) => KeepsConnsOnServer(kind, s, step);
    case Garbled(_) => KeepsConnsOnServer(kind, s, step);
    case Break(_, _, _) => KeepsConnsOnServer(kind, s, step);
    case Dial => KeepsConnsOnDial(kind, s, step);
    case DialFails(_) => KeepsConnsOnDial(kind, s, step);
    case Begin(_) => KeepsConnsOnSend(kind, s, step);
    case Write(_) => KeepsConnsOnSend(kind, s, step);
    case SendEnds => KeepsConnsOnSend(kind, s, step);
    case _ => KeepsConnsOnEnd(kind, s, step);
  }

  lemma ReplyIsFound(s: State)
    requires AllConns(s) && TurnInv(s) && Enabled(s, ReplyArrives)
    ensures var c := Current(s);
            && c.read < |c.served| <= |c.sent| && c.sent[c.read] == s.holder.call
            && c.served[c.read].q == Relevant(s.holder.call.q)
            && R.DecodeResponse(s.holder.call.q.op, ParseFrame(c.down).body)
               == Some(R.Delivered(s.holder.call.q.op, c.served[c.read].p))
  {
    hide UpInv, DownInv, ParseFrame, R.DecodeResponse, R.Delivered, Relevant;
    assert ConnInv(s, s.current.value);
    ReplyFound(Current(s), []);
    OldestIsHolders(s);
  }

  lemma KeepsTurn(kind: Client, s: State, step: Step)
    requires AllConns(s) && TurnInv(s) && Enabled(s, step)
    ensures TurnInv(Apply(kind, s, step))
  {
    hide AllConns, ParseFrame, DecodeRequest, R.DecodeResponse, R.Delivered, Relevant, R.Sendable, R.ResponseFrame;
    hide Protocol.Sendable, RequestFrame;
    if step.ReplyArrives? {
      ReplyIsFound(s);
    }
  }

  lemma SentAfter(kind: Client, s: State, step: Step)
    requires TurnInv(s) && Enabled(s, step)
    ensures var x, y := Sent(s), Sent(Apply(kind, s, step));
            && s.nextId <= Apply(kind, s, step).nextId
            && (y == x || y == x + [[]]
                || (step.Begin? && y == x[s.current.value := Current(s).sent + [Call(s.nextId, step.q)]]
                    && Apply(kind, s, step).nextId == s.nextId + 1))
  {
    hide ParseFrame, DecodeRequest, R.DecodeResponse, R.Delivered, Relevant, R.Sendable, R.ResponseFrame;
    hide Protocol.Sendable, RequestFrame;
    var x, y := Sent(s), Sent(Apply(kind, s, step));
    if step.Dial? {
      assert y == x + [[]];
    } else if !step.Begin? {
      assert y == x;
    } else if Protocol.Sendable(step.q) && Current(s).writable {
      assert y == x[s.current.value := Current(s).sent + [Call(s.nextId, step.q)]];
    } else {
      assert y == x;
    }
  }

  lemma OneMoreCall(x: seq<seq<Call>>, n: nat, j: nat, q: Request)
    requires Distinct(x) && IdsBelow(x, n) && j < |x|
    ensures Distinct(x[j := x[j] + [Call(n, q)]]) && IdsBelow(x[j := x[j] + [Call(n, q)]], n + 1)
  {
  }

  lemma OneMoreConn(x: seq<seq<Call>>, n: nat)
    requires Distinct(x) && IdsBelow(x, n)
    ensures Distinct(x + [[]]) && IdsBelow(x + [[]], n)
  {
  }

  lemma KeepsNumbered(kind: Client, s: State, step: Step)
    requires Numbered(s) && TurnInv(s) && Enabled(s, step)
    ensures Numbered(Apply(kind, s, step))
  {
    hide Apply, Enabled, Distinct, TurnInv;
    SentAfter(kind, s, step);
    OneMoreConn(Sent(s), s.nextId);
    if step.Begin? {
      assert Connected(s) by {
        BeginIsConnected(s, step);
      }
      OneMoreCall(Sent(s), s.nextId, s.current.value, step.q);
    }
  }

  lemma BeginIsConnected(s: State, step: Step)
    requires Enabled(s, step) && step.Begin?
    ensures Connected(s)
  {
  }

  lemma KeepsAnswers(kind: Client, s: State, step: Step)
    requires AllConns(s) && TurnInv(s) && AllAnswer(s) && Enabled(s, step)
    ensures AllAnswer(Apply(kind, s, step))
  {
    hide AllConns, ParseFrame, DecodeRequest, R.DecodeResponse, R.Delivered, Relevant, R.Sendable, R.ResponseFrame;
    hide Protocol.Sendable, RequestFrame, GrewAll;
    var s' := Apply(kind, s, step);
    StepGrows(kind, s, step);
    forall k | 0 <= k < |s'.done|
      ensures Answers(s', s'.done[k])
    {
      if k < |s.done| {
        assert s'.done[k] == s.done[k];
        AnswersStay(s, s', s.done[k]);
      } else if step.ReplyArrives? {
        ReplyIsFound(s);
      }
    }
  }

  lemma StepKeepsInv(kind: Client, s: State, step: Step)
    requires Inv(s) && Enabled(s, step)
    ensures Inv(Apply(kind, s, step))
  {
    hide AllConns, TurnInv, Numbered, AllAnswer, Enabled, Apply;
    KeepsConns(kind, s, step);
    KeepsTurn(kind, s, step);
    KeepsNumbered(kind, s, step);
    KeepsAnswers(kind, s, step);
  }

  lemma {:induction false} RunKeepsInv(kind: Client, states: seq<State>, steps: seq<Step>, i: nat)
    requires IsRun(kind, states, steps) && i <= |steps|
    ensures Inv(states[i])
  {
    hide Inv, Enabled, Apply;
    if i == 0 {
      assert Inv(START) by {
        StartIsInv();
      }
    } else {
      RunKeepsInv(kind, states, steps, i - 1);
      StepKeepsInv(kind, states[i - 1], steps[i - 1]);
    }
  }

  lemma StartIsInv()
    ensures Inv(START)
  {
  }

  // ---- results -----------------------------------------------------------------------------------------

  /** In every run of either client, every reply a call returned is the server's answer to that very call, reduced to
      the fields its op carries, and came over the connection that call was sent on. */
  lemma RepliesAnswerTheirCalls(kind: Client, states: seq<State>, steps: seq<Step>, i: nat, k: nat)
    requires IsRun(kind, states, steps) && i <= |steps| && k < |states[i].done| && states[i].done[k].reply.Some?
    ensures var s, d := states[i], states[i].done[k];
            && d.conn < |s.conns| && d.at < |s.conns[d.conn].served| && d.at < |s.conns[d.conn].sent|
            && s.conns[d.conn].sent[d.at] == d.call
            && s.conns[d.conn].served[d.at].q == Relevant(d.call.q)
            && d.reply == Some(R.Delivered(d.call.q.op, s.conns[d.conn].served[d.at].p))
  {
    hide R.Delivered, Relevant, Apply, Enabled, AllConns, Numbered, TurnInv;
    RunKeepsInv(kind, states, steps, i);
    assert Answers(states[i], states[i].done[k]);
  }

  /** Servers execute what was sent, in order and only once: each execution is a call of its own. */
  lemma CallsExecuteAtMostOnce(kind: Client, states: seq<State>, steps: seq<Step>, i: nat,
                               c: nat, k: nat, d: nat, l: nat)
    requires IsRun(kind, states, steps) && i <= |steps|
    requires c < |states[i].conns| && k < |states[i].conns[c].served|
    requires d < |states[i].conns| && l < |states[i].conns[d].served|
    ensures var cs := states[i].conns;
            && k < |cs[c].sent| && l < |cs[d].sent|
            && cs[c].served[k].q == Relevant(cs[c].sent[k].q)
            && (cs[c].sent[k].id == cs[d].sent[l].id ==> c == d && k == l)
  {
    hide Relevant, Apply, Enabled, AllAnswer, TurnInv, CallBytes, Protocol.Sendable;
    RunKeepsInv(kind, states, steps, i);
    var s := states[i];
    assert ConnInv(s, c) && ConnInv(s, d);
    assert Sent(s)[c] == s.conns[c].sent && Sent(s)[d] == s.conns[d].sent;
  }

  /** A call fails only when the connection could not be dialed, the request fits no frame, or the connection broke. */
  lemma FailureHasACause(kind: Client, s: State, step: Step)
    requires Inv(s) && Enabled(s, step)
    requires var s' := Apply(kind, s, step);
             |s'.done| > |s.done| && s'.done[|s.done|].reply.None?
    ensures step.DialFails? || (step.Begin? && !Protocol.Sendable(step.q)) || (Connected(s) && !Current(s).live)
  {
    hide ParseFrame, DecodeRequest, R.DecodeResponse, R.Delivered, Relevant, R.Sendable, R.ResponseFrame;
    hide Protocol.Sendable, RequestFrame, Numbered, AllAnswer, UpInv, DownInv;
    if step.ReplyArrives? {
      ReplyIsFound(s);
    }
    if Connected(s) {
      assert ConnInv(s, s.current.value);
    }
  }

  ghost predicate AllLive(s: State) { forall i :: 0 <= i < |s.conns| ==> s.conns[i].live }

  predicate AllReplied(s: State) { forall k :: 0 <= k < |s.done| ==> s.done[k].reply.Some? }

  /** The dial succeeds, the path holds, and requests and replies fit their frames. */
  predicate Faultless(s: State, step: Step) {
    match step
    case DialFails(_) => false
    case Break(_, _, _) => false
    case Begin(q) => Protocol.Sendable(q)
    case Serve(i, p) =>
      Enabled(s, step) ==> R.Sendable(DecodeRequest(ParseFrame(s.conns[i].up).body).value.op, p)
    case _ => true
  }

  /** Without a fault every connection stays sound, and a call that finishes has its reply. */
  lemma FaultlessStep(kind: Client, s: State, step: Step)
    requires Inv(s) && AllLive(s) && Enabled(s, step) && Faultless(s, step)
    ensures var t := Apply(kind, s, step);
            && AllLive(t) && |s.done| <= |t.done| && t.done[..|s.done|] == s.done
            && forall k :: |s.done| <= k < |t.done| ==> t.done[k].reply.Some?
  {
    hide ParseFrame, DecodeRequest, R.DecodeResponse, R.Delivered, Relevant, R.Sendable, R.ResponseFrame;
    hide Protocol.Sendable, RequestFrame, Numbered, AllAnswer, UpInv, DownInv;
    if step.ReplyArrives? {
      ReplyIsFound(s);
    }
    if Connected(s) {
      assert ConnInv(s, s.current.value);
    }
    if step.Garbled? {
      NothingIsGarbled(s, step.i);
    }
  }

  /** Whatever reaches a server decodes. */
  lemma NothingIsGarbled(s: State, i: nat)
    requires Inv(s) && i < |s.conns|
    ensures !Enabled(s, Garbled(i))
  {
    hide ParseFrame, DecodeRequest, R.DecodeResponse, R.Delivered, Relevant, R.Sendable, R.ResponseFrame;
    hide Protocol.Sendable, RequestFrame, Numbered, AllAnswer, DownInv, CallBytes;
    assert ConnInv(s, i);
    var c := s.conns[i];
    if ParseFrame(c.up).Body? {
      FirstCall(c.sent[|c.served|..], c.up);
    }
  }

  /** In a run of either client in which every dial succeeds, no path breaks and everything fits a frame, no call
      fails. */
  lemma {:induction false} NoFaultNoFailure(kind: Client, states: seq<State>, steps: seq<Step>, i: nat)
    requires IsRun(kind, states, steps) && i <= |steps|
    requires forall j :: 0 <= j < i ==> Faultless(states[j], steps[j])
    ensures AllLive(states[i]) && AllReplied(states[i])
  {
    hide Enabled, Apply, Inv, Faultless;
    if i > 0 {
      NoFaultNoFailure(kind, states, steps, i - 1);
      RunKeepsInv(kind, states, steps, i - 1);
      FaultlessStep(kind, states[i - 1], steps[i - 1]);
      OldAndNew(states[i - 1], states[i]);
    }
  }

  lemma OldAndNew(s: State, t: State)
    requires AllReplied(s) && |s.done| <= |t.done| && t.done[..|s.done|] == s.done
    requires forall k :: |s.done| <= k < |t.done| ==> t.done[k].reply.Some?
    ensures AllReplied(t)
  {
    forall k | 0 <= k < |t.done|
      ensures t.done[k].reply.Some?
    {
      if k < |s.done| {
        assert t.done[k] == t.done[..|s.done|][k];
      }
    }
  }

  /** A connection that is not in use is never used or read again: whatever was still on its way to an abandoned one is
      read by nobody, least of all on its replacement. */
  lemma {:induction false} AbandonedStaysUnread(kind: Client, states: seq<State>, steps: seq<Step>, i: nat, j: nat,
                                                c: nat)
    requires IsRun(kind, states, steps) && i <= j <= |steps|
    requires c < |states[i].conns| && states[i].current != Some(c)
    ensures c < |states[j].conns| && states[j].current != Some(c)
    ensures states[j].conns[c].read == states[i].conns[c].read
    decreases j - i
  {
    hide Enabled, Apply, Inv;
    if i < j {
      AbandonedStaysUnread(kind, states, steps, i, j - 1, c);
      RunKeepsInv(kind, states, steps, j - 1);
      UnusedStaysUnused(kind, states[j - 1], steps[j - 1], c);
    }
  }

  lemma UnusedStaysUnused(kind: Client, s: State, step: Step, c: nat)
    requires Inv(s) && Enabled(s, step) && c < |s.conns| && s.current != Some(c)
    ensures var t := Apply(kind, s, step);
            c < |t.conns| && t.current != Some(c) && t.conns[c].read == s.conns[c].read
  {
    hide ParseFrame, DecodeRequest, R.DecodeResponse, R.Delivered, Relevant, R.Sendable, R.ResponseFrame;
    hide Protocol.Sendable, RequestFrame, Numbered, AllAnswer, AllConns;
  }

  // ---- every call finishes -----------------------------------------------------------------------------

  /** The steps of the client and of the servers; the rest is new calls, dialing and breaking paths. */
  predicate Own(step: Step) {
    step.Write? || step.SendEnds? || step.SendFails? || step.ReplyArrives? || step.ReadFails? || step.Serve?
  }

  function QueuedWork(conns: seq<Conn>): nat {
    if conns == [] then 0 else QueuedWork(conns[..|conns| - 1]) + |conns[|conns| - 1].up|
  }

  /** Bytes to write, bytes to serve, and the call itself. */
  function WorkLeft(s: State): nat {
    QueuedWork(s.conns)
    + match s.holder
      case Idle => 0
      case Sending(_, rest) => 2 * |rest| + 2
      case Waiting(_) => 1
  }

  lemma {:induction false} QueuedAfter(conns: seq<Conn>, i: nat, c: Conn)
    requires i < |conns|
    ensures QueuedWork(conns[i := c]) + |conns[i].up| == QueuedWork(conns) + |c.up|
  {
    var last := |conns| - 1;
    if i == last {
      assert conns[i := c][..last] == conns[..last];
    } else {
      assert conns[i := c][..last] == conns[..last][i := c];
      QueuedAfter(conns[..last], i, c);
    }
  }

  /** While a call is on, each of these steps leaves less to do, and it stays on or is finished. */
  lemma OwnStepsFinishCalls(kind: Client, s: State, step: Step)
    requires Inv(s) && Enabled(s, step) && Own(step)
    ensures var t := Apply(kind, s, step);
            && WorkLeft(t) < WorkLeft(s)
            && (t.holder.Idle? && !s.holder.Idle? ==>
                  |t.done| == |s.done| + 1 && t.done[|s.done|].call == s.holder.call)
            && (!t.holder.Idle? ==> t.holder.call == s.holder.call && t.done == s.done)
  {
    hide ParseFrame, DecodeRequest, R.DecodeResponse, R.Delivered, Relevant, R.Sendable, R.ResponseFrame;
    hide Protocol.Sendable, RequestFrame, Numbered, AllAnswer, AllConns, QueuedWork;
    var t := Apply(kind, s, step);
    if step.Serve? {
      ServedIsShorter(s.conns[step.i].up);
      QueuedAfter(s.conns, step.i, t.conns[step.i]);
    } else if !step.SendEnds? {
      QueuedAfter(s.conns, s.current.value, t.conns[s.current.value]);
    }
  }

  lemma ServedIsShorter(b: bytes)
    requires ParseFrame(b).Body?
    ensures |ParseFrame(b).rest| < |b|
  {
    hide FromBE32;
  }

  /** A step that can be taken while a call is on, with `p` for the server to answer. */
  function NextStep(s: State, p: Response): Step
    requires !s.holder.Idle? && Connected(s)
  {
    var c := Current(s);
    if s.holder.Sending? then if s.holder.rest == [] then SendEnds else Write(|s.holder.rest|)
    else if !c.readable then ReadFails
    else if ParseFrame(c.down).Body? then ReplyArrives
    else if !c.live then ReadFails
    else Serve(s.current.value, p)
  }

  /** In every reachable state with a call on, one of these steps can be taken, whatever the servers answer. With the
      falling work, every call finishes after finitely many of them. */
  lemma CallsMove(s: State, p: Response)
    requires Inv(s) && !s.holder.Idle?
    ensures Connected(s) && Enabled(s, NextStep(s, p)) && Own(NextStep(s, p))
  {
    hide ParseFrame, DecodeRequest, R.DecodeResponse, Relevant, Protocol.Sendable, Numbered, AllAnswer;
    var c := Current(s);
    assert ConnInv(s, s.current.value);
    if s.holder.Waiting? && c.live && c.readable && !ParseFrame(c.down).Body? {
      RequestIsWaiting(s);
    }
  }

  /** With no call on, the next one can begin, on the connection there is or on a new one. */
  lemma IdleMoves(s: State, q: Request)
    requires Inv(s) && s.holder.Idle?
    ensures s.current.Some? ==> Enabled(s, Begin(q))
    ensures s.current.None? ==> Enabled(s, Dial) && Enabled(s, DialFails(q))
  {
  }

  lemma RepliesParse(es: seq<Entry>)
    requires AllSendable(es)
    ensures es != [] ==> ParseFrame(ReplyBytes(es)).Body?
  {
    hide ParseFrame, R.ResponseFrame, R.Sendable, R.DecodeResponse, R.Delivered;
    if es != [] {
      assert R.Sendable(es[0].q.op, es[0].p);
      R.ResponseFrameRoundTrip(es[0].q.op, es[0].p, ReplyBytes(es[1..]));
    }
  }

  /** With no reply coming on a sound connection, the holder's request is there for the server. */
  lemma RequestIsWaiting(s: State)
    requires Inv(s) && s.holder.Waiting? && Current(s).live && Current(s).readable && !ParseFrame(Current(s).down).Body?
    ensures ParseFrame(Current(s).up).Body?
    ensures DecodeRequest(ParseFrame(Current(s).up).body) == Some(Relevant(s.holder.call.q))
  {
    hide ParseFrame, DecodeRequest, R.DecodeResponse, Relevant, Protocol.Sendable, Numbered, AllAnswer, EncFields;
    hide RequestFields, Frame, CallBytes, R.ResponseFrame, R.Sendable;
    var c := Current(s);
    assert ConnInv(s, s.current.value);
    RepliesParse(c.served[c.read..]);
    assert |c.sent| == c.read + 1 == |c.served| + 1;
    var calls := c.sent[|c.served|..];
    assert c.up + [] == c.up == CallBytes(calls) && calls != [];
    CallBytesStep(calls);
    assert Protocol.Sendable(calls[0].q);
    RequestFrameRoundTrip(calls[0].q, CallBytes(calls[1..]));
  }

  ghost predicate IsPath(kind: Client, states: seq<State>, steps: seq<Step>) {
    && |states| == |steps| + 1
    && forall i :: 0 <= i < |steps| ==>
         Enabled(states[i], steps[i]) && states[i + 1] == Apply(kind, states[i], steps[i])
  }

  lemma StepThenPath(kind: Client, s: State, step: Step, states: seq<State>, steps: seq<Step>)
    requires Enabled(s, step) && IsPath(kind, states, steps) && states[0] == Apply(kind, s, step)
    ensures IsPath(kind, [s] + states, [step] + steps)
  {
    hide Enabled, Apply;
    forall i | 0 <= i < |[step] + steps|
      ensures Enabled(([s] + states)[i], ([step] + steps)[i])
      ensures ([s] + states)[i + 1] == Apply(kind, ([s] + states)[i], ([step] + steps)[i])
    {
      if i > 0 {
        assert Enabled(states[i - 1], steps[i - 1]);
      }
    }
  }

  lemma NextIsFaultless(s: State, p: Response)
    requires Inv(s) && AllLive(s) && !s.holder.Idle? && R.Sendable(s.holder.call.q.op, p)
    ensures Connected(s) && Faultless(s, NextStep(s, p))
  {
    hide ParseFrame, DecodeRequest, R.Sendable, Protocol.Sendable, Numbered, AllAnswer;
    assert ConnInv(s, s.current.value);
    if NextStep(s, p).Serve? {
      RequestIsWaiting(s);
    }
  }

  /** While the connections are sound, the call that is on is carried to its reply. */
  lemma {:induction false} CallIsAnswered(kind: Client, s: State, p: Response)
    returns (states: seq<State>, steps: seq<Step>)
    requires Inv(s) && AllLive(s) && !s.holder.Idle? && R.Sendable(s.holder.call.q.op, p)
    ensures IsPath(kind, states, steps) && states[0] == s
    ensures var t := states[|steps|];
            && Inv(t) && AllLive(t) && t.holder.Idle? && |t.done| == |s.done| + 1
            && t.done[|s.done|].call == s.holder.call && t.done[|s.done|].reply.Some?
    decreases WorkLeft(s)
  {
    hide Inv, Enabled, Apply, WorkLeft, NextStep, Faultless, R.Sendable, Own, AllLive;
    CallsMove(s, p);
    var step := NextStep(s, p);
    NextIsFaultless(s, p);
    var t := Apply(kind, s, step);
    StepKeepsInv(kind, s, step);
    OwnStepsFinishCalls(kind, s, step);
    FaultlessStep(kind, s, step);
    if t.holder.Idle? {
      states, steps := [s, t], [step];
    } else {
      states, steps := CallIsAnswered(kind, t, p);
      StepThenPath(kind, s, step, states, steps);
      states, steps := [s] + states, [step] + steps;
    }
  }

  /** From every reachable idle state with sound connections, every request that fits a frame can be called, over the
      connection there is or a new one, and comes back with a reply. */
  lemma EveryCallCanBeAnswered(kind: Client, s: State, q: Request, p: Response)
    returns (states: seq<State>, steps: seq<Step>)
    requires Inv(s) && AllLive(s) && s.holder.Idle? && Protocol.Sendable(q) && R.Sendable(q.op, p)
    ensures IsPath(kind, states, steps) && states[0] == s
    ensures var t := states[|steps|];
            && Inv(t) && AllLive(t) && t.holder.Idle? && |t.done| == |s.done| + 1
            && t.done[|s.done|].call == Call(s.nextId, q) && t.done[|s.done|].reply.Some?
  {
    hide Inv, Enabled, Apply, R.Sendable, Protocol.Sendable, AllLive;
    IdleMoves(s, q);
    if s.current.None? {
      var t := Apply(kind, s, Dial);
      StepKeepsInv(kind, s, Dial);
      DialConnects(kind, s);
      IdleMoves(t, q);
      states, steps := BegunIsAnswered(kind, t, q, p);
      StepThenPath(kind, s, Dial, states, steps);
      states, steps := [s] + states, [Dial] + steps;
    } else {
      states, steps := BegunIsAnswered(kind, s, q, p);
    }
  }

  lemma DialConnects(kind: Client, s: State)
    requires Enabled(s, Dial) && AllLive(s)
    ensures var t := Apply(kind, s, Dial);
            && t.current.Some? && t.holder.Idle? && AllLive(t) && t.nextId == s.nextId && t.done == s.done
  {
  }

  lemma BegunIsAnswered(kind: Client, s: State, q: Request, p: Response)
    returns (states: seq<State>, steps: seq<Step>)
    requires Inv(s) && AllLive(s) && Enabled(s, Begin(q)) && Protocol.Sendable(q) && R.Sendable(q.op, p)
    ensures IsPath(kind, states, steps) && states[0] == s
    ensures var t := states[|steps|];
            && Inv(t) && AllLive(t) && t.holder.Idle? && |t.done| == |s.done| + 1
            && t.done[|s.done|].call == Call(s.nextId, q) && t.done[|s.done|].reply.Some?
  {
    hide Inv, Enabled, Apply, R.Sendable, Protocol.Sendable, AllLive;
    var t := Apply(kind, s, Begin(q));
    StepKeepsInv(kind, s, Begin(q));
    BeginSends(kind, s, q);
    states, steps := CallIsAnswered(kind, t, p);
    StepThenPath(kind, s, Begin(q), states, steps);
    states, steps := [s] + states, [Begin(q)] + steps;
  }

  lemma BeginSends(kind: Client, s: State, q: Request)
    requires Inv(s) && AllLive(s) && Enabled(s, Begin(q)) && Protocol.Sendable(q)
    ensures var t := Apply(kind, s, Begin(q));
            t.holder == Sending(Call(s.nextId, q), RequestFrame(q)) && AllLive(t) && t.done == s.done
  {
    hide Protocol.Sendable, RequestFrame, Numbered, AllAnswer, UpInv, DownInv;
    assert ConnInv(s, s.current.value);
  }

  // ---- after a failure ---------------------------------------------------------------------------------

  /** The connection in use has failed a read or a write. */
  predicate Lost(s: State) { Connected(s) && (!Current(s).readable || !Current(s).writable) }

  /** A failed call leaves the FUSE client without a connection, to dial anew; it leaves the adapter with the lost one,
      unless there was none or the request fitted no frame. */
  lemma AfterFailure(kind: Client, s: State, step: Step)
    requires Inv(s) && Enabled(s, step)
    requires var s' := Apply(kind, s, step);
             |s'.done| > |s.done| && s'.done[|s.done|].reply.None?
    ensures var s' := Apply(kind, s, step);
            if kind.Fuse? then s'.holder.Idle? && s'.current.None?
            else s.current.None? || !Protocol.Sendable(s'.done[|s.done|].call.q) || (s'.holder.Idle? && Lost(s'))
  {
    hide ParseFrame, DecodeRequest, R.DecodeResponse, R.Delivered, Relevant, R.Sendable, R.ResponseFrame;
    hide Protocol.Sendable, RequestFrame, Numbered, AllAnswer, AllConns;
    if step.ReplyArrives? {
      ReplyIsFound(s);
    }
  }

  lemma LostStaysLost(s: State, step: Step)
    requires Inv(s) && Enabled(s, step) && Lost(s)
    ensures var t := Apply(Adapter, s, step);
            && Lost(t) && t.current == s.current && |s.done| <= |t.done|
            && (forall k :: 0 <= k < |s.done| ==> t.done[k] == s.done[k])
            && (forall k :: |s.done| <= k < |t.done| ==> t.done[k].reply.None?)
  {
    hide ParseFrame, DecodeRequest, R.DecodeResponse, R.Delivered, Relevant, R.Sendable, R.ResponseFrame;
    hide Protocol.Sendable, RequestFrame, Numbered, AllAnswer, AllConns;
  }

  /** The adapter never dials again after it has lost its connection: in every run, every call that finishes from then
      on fails. */
  lemma {:induction false} LossIsForGood(states: seq<State>, steps: seq<Step>, i: nat, j: nat)
    requires IsRun(Adapter, states, steps) && i <= j <= |steps| && Lost(states[i])
    ensures Lost(states[j]) && states[j].current == states[i].current && |states[i].done| <= |states[j].done|
    ensures forall k :: |states[i].done| <= k < |states[j].done| ==> states[j].done[k].reply.None?
    decreases j - i
  {
    hide Enabled, Apply, Inv, Lost;
    if i < j {
      LossIsForGood(states, steps, i, j - 1);
      RunKeepsInv(Adapter, states, steps, j - 1);
      LostStaysLost(states[j - 1], steps[j - 1]);
    }
  }
}
