/** The proxy-to-executor direction of a streamed subprocess: the stream kind, the spawn request, then control
    frames that a stdin pump and a signal forwarder write under a mutex. The executor reads the kind unbuffered
    and everything after it through a buffer; it writes stdin into a pipe of bounded size and reads no further frame
    until the child has made room. */
module ExecUplink {
  import opened Bytes
  import opened ExecProto
  import opened ExecLink

  const KIND_EXEC: byte := 88 // 'X'
  const MAX_REQUEST: nat := 16 * MAX_CHUNK
  const SIGNAL_QUEUE: nat := 4

  datatype Who = Main | StdinPump | Forwarder

  datatype Lock = Free | Held(who: Who, rest: bytes)

  datatype Proxy = Proxy(
    stdin: bytes,            // what the proxy's own stdin has delivered so far
    stdinOpen: bool,
    taken: bytes,            // what the pump has read of it
    hand: bytes,             // the part of it waiting for the mutex
    eofSent: bool,
    eofPos: nat,             // where the end-of-input frame stands in `sent`
    accepted: seq<int32>,    // signals the runtime queued for the forwarder
    queue: seq<int32>,
    signal: Option<int32>,   // taken off the queue, waiting for the mutex
    lock: Lock,
    sent: seq<Frame>,        // every control frame whose writing has begun
    left: bool)              // the proxy process is gone

  datatype Stage = AwaitKind | AwaitRequest | Serving(request: bytes) | Ended

  datatype Executor = Executor(
    stage: Stage,
    buf: bytes,
    got: seq<Frame>,
    feeding: bytes,          // the rest of a stdin frame, still to be written to the child's pipe
    childStdin: bytes,       // everything written to that pipe
    childTook: nat,          // how much of it the child has read
    room: nat,               // how much unread input the pipe holds at most
    reading: bool,           // the child's end of the pipe is open
    stdinClosed: bool,
    closedByFrame: bool,
    signals: seq<int32>)

  datatype State = State(p: Proxy, link: Link, e: Executor)

  datatype Step =
    | StdinDelivers(data: bytes)
    | StdinEnds
    | SignalRaised(signum: int32)
    | PumpReads(k: nat)
    | AcquireStdin
    | AcquireEof
    | TakeSignal
    | AcquireSignal
    | WriteSome(k: nat)
    | Release
    | ProxyLeaves
    | BridgeReads(k: nat)
    | BridgeWrites(k: nat)
    | PathCut
    | ReadKind
    | ExecutorFills(k: nat)
    | ReadRequest
    | ReadControl
    | FeedSome(k: nat)
    | FeedFails
    | ControlEof
    | ChildReads(k: nat)
    | ChildStopsReading

  function Preamble(body: bytes): bytes { [KIND_EXEC] + BE32(U32Of(|body|)) + body }

  function Start(body: bytes, window: nat, room: nat): State {
    State(Proxy([], true, [], [], false, 0, [], [], None, Held(Main, Preamble(body)), [], false), NewLink(window),
          Executor(AwaitKind, [], [], [], [], 0, room, true, false, false, []))
  }

  function Rest(l: Lock): bytes { if l.Held? then l.rest else [] }

  predicate Holds(l: Lock, who: Who) { l.Held? && l.who == who }

  /** The proxy's goroutines exist: the kind and the request have been written. */
  predicate Running(p: Proxy) { !p.left && !Holds(p.lock, Main) }

  predicate RequestArrived(b: bytes) { |b| >= 4 && (FromBE32(b) > MAX_REQUEST || |b| >= 4 + FromBE32(b)) }

  predicate Enabled(s: State, step: Step) {
    match step
    case StdinDelivers(_) => s.p.stdinOpen
    case StdinEnds => s.p.stdinOpen
    case SignalRaised(_) => Running(s.p)
    case PumpReads(k) =>
      && Running(s.p) && !Holds(s.p.lock, StdinPump) && s.p.hand == [] && !s.p.eofSent
      && 0 < k <= PUMP_BUFFER && |s.p.taken| + k <= |s.p.stdin|
    case AcquireStdin => Running(s.p) && s.p.lock.Free? && s.p.hand != []
    case AcquireEof =>
      && Running(s.p) && s.p.lock.Free? && s.p.hand == [] && !s.p.eofSent
      && !s.p.stdinOpen && |s.p.taken| == |s.p.stdin|
    case TakeSignal => Running(s.p) && !Holds(s.p.lock, Forwarder) && s.p.signal.None? && s.p.queue != []
    case AcquireSignal => Running(s.p) && s.p.lock.Free? && s.p.signal.Some?
    case WriteSome(k) => !s.p.left && s.p.lock.Held? && 0 < k <= |s.p.lock.rest| && s.link.Takes(k)
    case Release => !s.p.left && s.p.lock.Held? && s.p.lock.rest == []
    case ProxyLeaves => !s.p.left
    case BridgeReads(k) => !s.link.cut && s.link.held == [] && 0 < k <= |s.link.wire|
    case BridgeWrites(k) => 0 < k <= |s.link.held| && s.link.Forwards(k)
    case PathCut => !s.link.cut
    case ReadKind => s.e.stage.AwaitKind? && s.link.arrived != []
    case ExecutorFills(k) =>
      (s.e.stage.AwaitRequest? || s.e.stage.Serving?) && s.e.feeding == [] && 0 < k <= |s.link.arrived|
    case ReadRequest => s.e.stage.AwaitRequest? && RequestArrived(s.e.buf)
    case ReadControl => s.e.stage.Serving? && s.e.feeding == [] && ParseFrame(s.e.buf).Got?
    case FeedSome(k) => s.e.reading && 0 < k <= |s.e.feeding| && |s.e.childStdin| + k <= s.e.childTook + s.e.room
    case FeedFails => !s.e.reading && s.e.feeding != []
    case ControlEof =>
      && s.e.stage.Serving? && s.e.feeding == [] && !ParseFrame(s.e.buf).Got?
      && s.link.Drained() && (s.link.cut || s.p.left)
    case ChildReads(k) => s.e.reading && s.e.childTook + k <= |s.e.childStdin|
    case ChildStopsReading => s.e.reading
  }

  function SendFrame(p: Proxy, who: Who, f: Frame): Proxy {
    p.(lock := Held(who, FrameBytes(f)), sent := p.sent + [f])
  }

  function Control(e: Executor, f: Frame, rest: bytes): Executor {
    var d := e.(buf := rest, got := e.got + [f]);
    if f.tag == TAG_SIGNAL then d.(signals := d.signals + [Signum(f)])
    else if f.tag == TAG_STDIN then
      if f.data == [] then d.(stdinClosed := true, closedByFrame := true)
      else if d.stdinClosed then d
      else d.(feeding := f.data)
    else d
  }

  function Apply(s: State, step: Step): State
    requires Enabled(s, step)
  {
    var p, e, l := s.p, s.e, s.link;
    match step
    case StdinDelivers(d) => s.(p := p.(stdin := p.stdin + d))
    case StdinEnds => s.(p := p.(stdinOpen := false))
    case SignalRaised(n) =>
      if |p.queue| < SIGNAL_QUEUE then s.(p := p.(accepted := p.accepted + [n], queue := p.queue + [n])) else s
    case PumpReads(k) =>
      var n := |p.taken|;
      s.(p := p.(taken := p.stdin[..n + k], hand := p.stdin[n..n + k]))
    case AcquireStdin => s.(p := SendFrame(p, StdinPump, Chunk(TAG_STDIN, p.hand)).(hand := []))
    case AcquireEof => s.(p := SendFrame(p, StdinPump, Chunk(TAG_STDIN, [])).(eofSent := true, eofPos := |p.sent|))
    case TakeSignal => s.(p := p.(signal := Some(p.queue[0]), queue := p.queue[1..]))
    case AcquireSignal => s.(p := SendFrame(p, Forwarder, SignalFrame(p.signal.value)).(signal := None))
    case WriteSome(k) => s.(p := p.(lock := p.lock.(rest := p.lock.rest[k..])), link := l.Send(p.lock.rest[..k]))
    case Release => s.(p := p.(lock := Free))
    case ProxyLeaves => s.(p := p.(left := true))
    case BridgeReads(k) => s.(link := l.BridgeIn(k))
    case BridgeWrites(k) => s.(link := l.BridgeOut(k))
    case PathCut => s.(link := l.Cut())
    case ReadKind =>
      s.(link := l.Receive(1), e := e.(stage := if l.arrived[0] == KIND_EXEC then AwaitRequest else Ended))
    case ExecutorFills(k) => s.(link := l.Receive(k), e := e.(buf := e.buf + l.arrived[..k]))
    case ReadRequest =>
      var n := FromBE32(e.buf);
      if n > MAX_REQUEST then s.(e := e.(stage := Ended))
      else s.(e := e.(stage := Serving(e.buf[4..4 + n]), buf := e.buf[4 + n..]))
    case ReadControl =>
      var r := ParseFrame(e.buf);
      s.(e := Control(e, r.frame, r.rest))
    case FeedSome(k) => s.(e := e.(childStdin := e.childStdin + e.feeding[..k], feeding := e.feeding[k..]))
    case FeedFails => s.(e := e.(feeding := []))
    case ControlEof => s.(e := e.(stdinClosed := true, stage := Ended))
    case ChildReads(k) => s.(e := e.(childTook := e.childTook + k))
    case ChildStopsReading => s.(e := e.(reading := false))
  }

  ghost predicate IsRun(body: bytes, states: seq<State>, steps: seq<Step>) {
    && |body| <= MAX_REQUEST
    && |states| == |steps| + 1
    && states[0] == Start(body, states[0].link.window, states[0].e.room)
    && states[0].link.window > 0 && states[0].e.room > 0
    && forall i :: 0 <= i < |steps| ==> Enabled(states[i], steps[i]) && states[i + 1] == Apply(states[i], steps[i])
  }

  // ---- what every step keeps ----------------------------------------------------------------------------

  function Unread(s: State): bytes { s.e.buf + s.link.InFlight() + Rest(s.p.lock) }

  function Frames(s: State): bytes
    requires |s.e.got| <= |s.p.sent|
  {
    FramesBytes(s.p.sent[|s.e.got|..])
  }

  /** What the executor has still to read, by the stage it is in. */
  ghost predicate WireInv(s: State, body: bytes) {
    && AllSendable(s.p.sent)
    && s.link.Valid()
    && s.e.got <= s.p.sent
    && (match s.e.stage
        case AwaitKind => s.e.buf == [] && s.e.got == [] && Unread(s) == Preamble(body) + Frames(s)
        case AwaitRequest => s.e.got == [] && Unread(s) == BE32(U32Of(|body|)) + body + Frames(s)
        case Serving(r) => r == body && Unread(s) == Frames(s)
        case Ended => s.link.cut || s.p.left)
  }

  predicate IsEof(f: Frame) { f.tag == TAG_STDIN && f.data == [] }

  ghost predicate StdinInv(p: Proxy) {
    && p.taken <= p.stdin
    && Payload(p.sent, TAG_STDIN) + p.hand == p.taken
    && |p.hand| <= PUMP_BUFFER
    && (!p.eofSent ==> forall i :: 0 <= i < |p.sent| ==> !IsEof(p.sent[i]))
    && (p.eofSent ==>
          && !p.stdinOpen && p.hand == [] && p.taken == p.stdin
          && p.eofPos < |p.sent| && IsEof(p.sent[p.eofPos])
          && Payload(p.sent[..p.eofPos], TAG_STDIN) == p.stdin
          && (forall i :: 0 <= i < p.eofPos ==> !IsEof(p.sent[i]))
          && (forall i :: p.eofPos < i < |p.sent| ==> p.sent[i].tag != TAG_STDIN))
  }

  ghost predicate SignalInv(p: Proxy) {
    SignalsOf(p.sent) + (if p.signal.Some? then [p.signal.value] else []) + p.queue == p.accepted
  }

  ghost predicate ExecutorInv(s: State) {
    var e := s.e;
    && e.childTook <= |e.childStdin| <= e.childTook + e.room && e.room > 0
    && e.childStdin <= Payload(e.got, TAG_STDIN)
    && (e.reading ==> e.childStdin + e.feeding == Payload(e.got, TAG_STDIN))
    && (e.feeding != [] ==> e.stage.Serving? && !e.stdinClosed)
    && e.signals == SignalsOf(e.got)
    && (e.closedByFrame <==> s.p.eofSent && s.p.eofPos < |e.got|)
    && (!e.stage.Ended? ==> (e.stdinClosed <==> e.closedByFrame))
  }

  ghost predicate Inv(s: State, body: bytes) {
    WireInv(s, body) && StdinInv(s.p) && SignalInv(s.p) && ExecutorInv(s)
  }

  // ---- every step keeps the invariant ------------------------------------------------------------------

  lemma KeepsWireOnPath(s: State, step: Step, body: bytes)
    requires WireInv(s, body) && Enabled(s, step)
    requires step.BridgeReads? || step.BridgeWrites? || step.PathCut? || step.ExecutorFills?
    ensures WireInv(Apply(s, step), body)
  {
    hide FramesBytes, ParseFrame, BE32, FromBE32, U32Of;
    match step
    case BridgeReads(k) => BridgeInConserves(s.link, k);
    case BridgeWrites(k) => BridgeOutConserves(s.link, k);
    case PathCut => CutConserves(s.link);
    case ExecutorFills(k) =>
      ReceiveTakesFront(s.link, k);
      var head, tail := s.link.arrived[..k], s.link.Receive(k).InFlight();
      assert (s.e.buf + head) + tail + Rest(s.p.lock) == s.e.buf + (head + tail) + Rest(s.p.lock);
  }

  lemma KeepsWireOnWrite(s: State, k: nat, body: bytes)
    requires WireInv(s, body) && Enabled(s, WriteSome(k))
    ensures WireInv(Apply(s, WriteSome(k)), body)
  {
    hide FramesBytes, ParseFrame, BE32, FromBE32, U32Of;
    var rest := s.p.lock.rest;
    SendAppends(s.link, rest[..k]);
    assert rest == rest[..k] + rest[k..];
    assert s.e.buf + (s.link.InFlight() + rest[..k]) + rest[k..]
        == s.e.buf + s.link.InFlight() + (rest[..k] + rest[k..]);
  }

  lemma KeepsWireOnSend(s: State, t: State, who: Who, f: Frame, body: bytes)
    requires WireInv(s, body) && s.p.lock.Free? && Sendable(f)
    requires t.link == s.link && t.e == s.e && t.p.left == s.p.left
    requires t.p.lock == Held(who, FrameBytes(f)) && t.p.sent == s.p.sent + [f]
    ensures WireInv(t, body)
  {
    hide FramesBytes, FrameBytes, ParseFrame, BE32, FromBE32, U32Of;
    var n := |s.e.got|;
    FramesSnoc(s.p.sent[n..], f);
    assert (s.p.sent + [f])[n..] == s.p.sent[n..] + [f];
    assert Unread(t) == Unread(s) + FrameBytes(f) by {
      assert Unread(s) == s.e.buf + s.link.InFlight() + [];
    }
    assert Frames(t) == Frames(s) + FrameBytes(f);
    var request := BE32(U32Of(|body|)) + body;
    assert (request + Frames(s)) + FrameBytes(f) == request + Frames(t);
    assert (Preamble(body) + Frames(s)) + FrameBytes(f) == Preamble(body) + Frames(t);
  }

  /** The unbuffered one-byte read takes the stream kind and nothing more. */
  lemma KindIsFirst(arrived: bytes, after: bytes, rest: bytes)
    requires arrived != [] && arrived + after == [KIND_EXEC] + rest
    ensures arrived[0] == KIND_EXEC && arrived[1..] + after == rest
  {
    assert (arrived + after)[0] == arrived[0];
    assert (arrived + after)[1..] == arrived[1..] + after;
    assert ([KIND_EXEC] + rest)[1..] == rest;
  }

  function Behind(s: State): bytes { s.link.held + s.link.wire + s.link.lost + Rest(s.p.lock) }

  lemma UnreadFromArrived(s: State)
    requires s.e.buf == []
    ensures Unread(s) == s.link.arrived + Behind(s)
  {
  }

  lemma PreambleFromKind(body: bytes, frames: bytes)
    ensures Preamble(body) + frames == [KIND_EXEC] + (BE32(U32Of(|body|)) + body + frames)
  {
    hide BE32, U32Of;
  }

  lemma KeepsWireOnKind(s: State, body: bytes)
    requires WireInv(s, body) && Enabled(s, ReadKind)
    ensures WireInv(Apply(s, ReadKind), body)
  {
    hide FramesBytes, BE32, FromBE32, U32Of, Preamble, Unread, Behind;
    var t := Apply(s, ReadKind);
    UnreadFromArrived(s);
    PreambleFromKind(body, Frames(s));
    KindIsFirst(s.link.arrived, Behind(s), BE32(U32Of(|body|)) + body + Frames(s));
    UnreadFromArrived(t);
    assert Behind(t) == Behind(s) by {
      SameBehind(s, t);
    }
  }

  lemma SameBehind(s: State, t: State)
    requires s.p == t.p && s.link.held == t.link.held && s.link.wire == t.link.wire && s.link.lost == t.link.lost
    ensures Behind(t) == Behind(s)
  {
  }

  /** The request the executor decodes is the request the proxy encoded, and its buffer is left at the first
      control frame. */
  lemma KeepsWireOnRequest(s: State, body: bytes)
    requires |body| <= MAX_REQUEST
    requires WireInv(s, body) && Enabled(s, ReadRequest)
    ensures WireInv(Apply(s, ReadRequest), body)
  {
    hide FramesBytes, BE32, FromBE32, U32Of;
    var coming := s.link.InFlight() + Rest(s.p.lock);
    assert Unread(s) == s.e.buf + coming;
    RequestOff(s.e.buf, coming, body, Frames(s));
    var left := s.e.buf[4 + |body|..];
    assert left + coming == left + s.link.InFlight() + Rest(s.p.lock);
  }

  /** A whole request at the front of what has arrived. */
  lemma RequestOff(buf: bytes, coming: bytes, body: bytes, rest: bytes)
    requires |body| <= MAX_REQUEST && RequestArrived(buf)
    requires buf + coming == BE32(U32Of(|body|)) + body + rest
    ensures FromBE32(buf) == |body| <= |buf| - 4 && buf[4..4 + |body|] == body && buf[4 + |body|..] + coming == rest
  {
    hide BE32, FromBE32;
    var word, n := BE32(U32Of(|body|)), |body|;
    var all := word + body + rest;
    assert buf[..4] == (buf + coming)[..4] == all[..4] == word;
    BE32RoundTrip(n, buf[4..]);
    assert buf == word + buf[4..];
    assert buf[4..4 + n] == (buf + coming)[4..4 + n] == all[4..4 + n] == body;
    assert buf[4 + n..] + coming == (buf + coming)[4 + n..] == all[4 + n..] == rest;
  }

  lemma KeepsWireOnControl(s: State, body: bytes)
    requires WireInv(s, body) && Enabled(s, ReadControl)
    ensures WireInv(Apply(s, ReadControl), body)
    ensures |s.e.got| < |s.p.sent| && ParseFrame(s.e.buf).frame == s.p.sent[|s.e.got|]
  {
    hide FramesBytes, FrameBytes, ParseFrame, BE32, FromBE32, U32Of;
    var fs := s.p.sent[|s.e.got|..];
    var coming := s.link.InFlight() + Rest(s.p.lock);
    assert Unread(s) == s.e.buf + coming;
    ParseArrived(fs, s.e.buf, coming);
    var rest := ParseFrame(s.e.buf).rest;
    assert rest + coming == rest + s.link.InFlight() + Rest(s.p.lock);
    assert fs[1..] == s.p.sent[|s.e.got| + 1..];
    assert s.e.got + [fs[0]] <= s.p.sent;
  }

  lemma SignalFrameIsSendable(n: int32)
    ensures Sendable(SignalFrame(n))
  {
  }

  lemma KeepsWire(s: State, step: Step, body: bytes)
    requires |body| <= MAX_REQUEST
    requires WireInv(s, body) && Enabled(s, step)
    ensures WireInv(Apply(s, step), body)
  {
    hide FramesBytes, FrameBytes, ParseFrame, BE32, FromBE32, U32Of, SignalFrame, RequestArrived;
    match step
    case AcquireStdin => KeepsWireOnSend(s, Apply(s, step), StdinPump, Chunk(TAG_STDIN, s.p.hand), body);
    case AcquireEof => KeepsWireOnSend(s, Apply(s, step), StdinPump, Chunk(TAG_STDIN, []), body);
    case AcquireSignal =>
      SignalFrameIsSendable(s.p.signal.value);
      KeepsWireOnSend(s, Apply(s, step), Forwarder, SignalFrame(s.p.signal.value), body);
    case WriteSome(k) => KeepsWireOnWrite(s, k, body);
    case ReadKind => KeepsWireOnKind(s, body);
    case ReadRequest => KeepsWireOnRequest(s, body);
    case ReadControl => KeepsWireOnControl(s, body);
    case BridgeReads(_) => KeepsWireOnPath(s, step, body);
    case BridgeWrites(_) => KeepsWireOnPath(s, step, body);
    case PathCut => KeepsWireOnPath(s, step, body);
    case ExecutorFills(_) => KeepsWireOnPath(s, step, body);
    case _ =>
  }

  lemma SendKeepsEofPlace(p: Proxy, f: Frame)
    requires StdinInv(p) && p.eofSent
    requires f.tag != TAG_STDIN
    ensures StdinInv(p.(sent := p.sent + [f]))
  {
    hide Payload;
    var q := p.(sent := p.sent + [f]);
    FramesSnoc(p.sent, f);
    assert q.sent[..p.eofPos] == p.sent[..p.eofPos];
  }

  lemma KeepsStdinOnChunk(p: Proxy)
    requires StdinInv(p) && p.hand != []
    ensures StdinInv(SendFrame(p, StdinPump, Chunk(TAG_STDIN, p.hand)).(hand := []))
  {
    hide Payload, FrameBytes;
    FramesSnoc(p.sent, Chunk(TAG_STDIN, p.hand));
    assert p.taken + [] == p.taken;
  }

  /** The pump writes a zero-length frame at the end of its input and nowhere else. */
  lemma KeepsStdinOnEof(p: Proxy)
    requires StdinInv(p) && p.hand == [] && !p.eofSent && !p.stdinOpen && |p.taken| == |p.stdin|
    ensures StdinInv(SendFrame(p, StdinPump, Chunk(TAG_STDIN, [])).(eofSent := true, eofPos := |p.sent|))
  {
    hide Payload, FrameBytes;
    FramesSnoc(p.sent, Chunk(TAG_STDIN, []));
    assert (p.sent + [Chunk(TAG_STDIN, [])])[..|p.sent|] == p.sent;
    assert p.taken + [] == p.taken && Payload(p.sent, TAG_STDIN) + [] == Payload(p.sent, TAG_STDIN);
  }

  lemma KeepsStdinOnSignal(p: Proxy, f: Frame)
    requires StdinInv(p) && f.tag == TAG_SIGNAL
    ensures StdinInv(p.(sent := p.sent + [f]))
  {
    hide Payload;
    if p.eofSent {
      SendKeepsEofPlace(p, f);
    } else {
      FramesSnoc(p.sent, f);
    }
  }

  lemma KeepsStdinOnRead(p: Proxy, k: nat)
    requires StdinInv(p) && p.hand == [] && !p.eofSent && k <= PUMP_BUFFER && |p.taken| + k <= |p.stdin|
    ensures StdinInv(p.(taken := p.stdin[..|p.taken| + k], hand := p.stdin[|p.taken|..|p.taken| + k]))
  {
    hide Payload;
    var n := |p.taken|;
    assert p.taken == p.stdin[..n] && Payload(p.sent, TAG_STDIN) + [] == Payload(p.sent, TAG_STDIN);
    assert p.stdin[..n + k] == p.stdin[..n] + p.stdin[n..n + k];
  }

  lemma KeepsStdin(s: State, step: Step)
    requires StdinInv(s.p) && Enabled(s, step)
    ensures StdinInv(Apply(s, step).p)
  {
    hide FrameBytes, ParseFrame, Payload, BE32, FromBE32, U32Of, RequestArrived;
    match step
    case AcquireStdin => KeepsStdinOnChunk(s.p);
    case AcquireEof => KeepsStdinOnEof(s.p);
    case AcquireSignal => KeepsStdinOnSignal(s.p, SignalFrame(s.p.signal.value));
    case PumpReads(k) => KeepsStdinOnRead(s.p, k);
    case _ =>
  }

  lemma SignalsSnoc(fs: seq<Frame>, f: Frame)
    ensures SignalsOf(fs + [f]) == SignalsOf(fs) + if f.tag == TAG_SIGNAL then [Signum(f)] else []
  {
    hide Signum;
    SignalsConcat(fs, [f]);
    assert [f][1..] == [];
  }

  lemma KeepsSignalsOnSend(p: Proxy, f: Frame)
    requires SignalInv(p)
    requires f.tag == TAG_STDIN || (p.signal.Some? && f == SignalFrame(p.signal.value))
    ensures SignalInv(p.(sent := p.sent + [f], signal := if f.tag == TAG_STDIN then p.signal else None))
  {
    hide BE32, FromBE32, U32Of, Signum, SignalsOf;
    SignalsSnoc(p.sent, f);
    if f.tag == TAG_STDIN {
      assert SignalsOf(p.sent) + [] == SignalsOf(p.sent);
    } else {
      SignumRoundTrip(p.signal.value);
      assert SignalsOf(p.sent) + [p.signal.value] + [] + p.queue == SignalsOf(p.sent) + [p.signal.value] + p.queue;
    }
  }

  lemma KeepsSignals(s: State, step: Step)
    requires SignalInv(s.p) && Enabled(s, step)
    ensures SignalInv(Apply(s, step).p)
  {
    hide FrameBytes, ParseFrame, BE32, FromBE32, U32Of, RequestArrived, Signum, SignalsOf;
    match step
    case AcquireStdin => KeepsSignalsOnSend(s.p, Chunk(TAG_STDIN, s.p.hand));
    case AcquireEof => KeepsSignalsOnSend(s.p, Chunk(TAG_STDIN, []));
    case AcquireSignal => KeepsSignalsOnSend(s.p, SignalFrame(s.p.signal.value));
    case TakeSignal => assert [s.p.queue[0]] + s.p.queue[1..] == [] + s.p.queue;
    case _ =>
  }

  lemma KeepsExecutorOnControl(s: State, body: bytes)
    requires WireInv(s, body) && StdinInv(s.p) && ExecutorInv(s) && Enabled(s, ReadControl)
    ensures ExecutorInv(Apply(s, ReadControl))
  {
    hide FramesBytes, FrameBytes, ParseFrame, Payload, SignalsOf, BE32, FromBE32, U32Of, Signum;
    KeepsWireOnControl(s, body);
    var f := s.p.sent[|s.e.got|];
    FramesSnoc(s.e.got, f);
    SignalsSnoc(s.e.got, f);
    assert Payload(s.e.got, TAG_STDIN) + [] == Payload(s.e.got, TAG_STDIN);
    assert s.e.childStdin + [] == s.e.childStdin;
    PrefixGrows(s.e.childStdin, Payload(s.e.got, TAG_STDIN), f.data);
    assert SignalsOf(s.e.got) + [] == SignalsOf(s.e.got);
  }

  lemma PrefixGrows(a: bytes, b: bytes, more: bytes)
    requires a <= b
    ensures a <= b + more
  {
  }

  lemma KeepsExecutorOnFeed(s: State, k: nat)
    requires ExecutorInv(s) && Enabled(s, FeedSome(k))
    ensures ExecutorInv(Apply(s, FeedSome(k)))
  {
    hide Payload, SignalsOf;
    var a, b, all := s.e.feeding[..k], s.e.feeding[k..], Payload(s.e.got, TAG_STDIN);
    assert a + b == s.e.feeding;
    assert (s.e.childStdin + a) + b == s.e.childStdin + (a + b) == all;
    assert s.e.childStdin + a == all[..|s.e.childStdin + a|];
  }

  lemma KeepsExecutor(s: State, step: Step, body: bytes)
    requires WireInv(s, body) && StdinInv(s.p) && ExecutorInv(s) && Enabled(s, step)
    ensures ExecutorInv(Apply(s, step))
  {
    hide FramesBytes, FrameBytes, ParseFrame, Payload, SignalsOf, BE32, FromBE32, U32Of, RequestArrived;
    match step
    case ReadControl => KeepsExecutorOnControl(s, body);
    case FeedSome(k) => KeepsExecutorOnFeed(s, k);
    case _ =>
  }

  lemma StepKeepsInv(s: State, step: Step, body: bytes)
    requires |body| <= MAX_REQUEST
    requires Inv(s, body) && Enabled(s, step)
    ensures Inv(Apply(s, step), body)
  {
    hide WireInv, StdinInv, SignalInv, ExecutorInv, Apply, Enabled;
    KeepsWire(s, step, body);
    KeepsStdin(s, step);
    KeepsSignals(s, step);
    KeepsExecutor(s, step, body);
  }

  lemma StartHasInv(body: bytes, s: State)
    requires s == Start(body, s.link.window, s.e.room) && s.link.window > 0 && s.e.room > 0
    ensures Inv(s, body)
  {
    hide BE32, U32Of;
    assert s.p.sent[|s.e.got|..] == [];
    assert Unread(s) == Preamble(body) + [];
  }

  lemma {:induction false} RunKeepsInv(body: bytes, states: seq<State>, steps: seq<Step>, k: nat)
    requires IsRun(body, states, steps) && k < |states|
    ensures Inv(states[k], body)
  {
    hide Apply, Enabled;
    if k == 0 {
      StartHasInv(body, states[0]);
    } else {
      RunKeepsInv(body, states, steps, k - 1);
      assert states[k] == Apply(states[k - 1], steps[k - 1]);
      StepKeepsInv(states[k - 1], steps[k - 1], body);
    }
  }

  // ---- what a run guarantees ---------------------------------------------------------------------------

  lemma SignalsOfPrefix(fs: seq<Frame>, k: nat)
    requires k <= |fs|
    ensures SignalsOf(fs[..k]) <= SignalsOf(fs)
  {
    hide SignalsOf;
    SignalsConcat(fs[..k], fs[k..]);
    assert fs[..k] + fs[k..] == fs;
  }

  /** In every reachable state: the request being served is the one the proxy sent; the child has been fed a
      prefix of the proxy's stdin; if its stdin was closed by a frame, the proxy's stdin had ended and the child got
      all of it, unless it closed its own end; and the signals delivered are, once each and in order, the first of
      those accepted for forwarding. */
  lemma InputIsFaithful(body: bytes, states: seq<State>, steps: seq<Step>, k: nat)
    requires IsRun(body, states, steps) && k < |states|
    ensures var s := states[k];
            && (s.e.stage.Serving? ==> s.e.stage.request == body)
            && s.e.childStdin <= s.p.stdin
            && (s.e.closedByFrame ==> !s.p.stdinOpen && (s.e.reading ==> s.e.childStdin == s.p.stdin))
            && s.e.signals <= s.p.accepted
            && (s.e.stage.Serving? && s.e.stdinClosed ==> s.e.closedByFrame)
            && (s.e.stage.Ended? ==> s.link.cut || s.p.left)
  {
    hide Apply, Enabled, FramesBytes, FrameBytes, Payload, SignalsOf, BE32, FromBE32, U32Of, Signum;
    RunKeepsInv(body, states, steps, k);
    var s := states[k];
    GotIsPrefix(s, body);
    StdinIsPrefix(s, body);
  }

  lemma GotIsPrefix(s: State, body: bytes)
    requires Inv(s, body)
    ensures s.e.signals <= s.p.accepted
  {
    hide FramesBytes, FrameBytes, Payload, SignalsOf, BE32, FromBE32, U32Of, Signum, StdinInv, ParseFrame;
    var n := |s.e.got|;
    assert s.p.sent[..n] == s.e.got;
    SignalsOfPrefix(s.p.sent, n);
    assert SignalsOf(s.p.sent) <= s.p.accepted;
    assert s.e.signals == SignalsOf(s.p.sent)[..|s.e.signals|] == s.p.accepted[..|s.e.signals|];
  }

  lemma StdinIsPrefix(s: State, body: bytes)
    requires Inv(s, body)
    ensures Payload(s.e.got, TAG_STDIN) <= s.p.stdin && s.e.childStdin <= s.p.stdin
    ensures s.e.closedByFrame ==> !s.p.stdinOpen && (s.e.reading ==> s.e.childStdin == s.p.stdin)
  {
    hide FramesBytes, FrameBytes, Payload, SignalsOf, BE32, FromBE32, U32Of, Signum, SignalInv, ParseFrame;
    var n := |s.e.got|;
    assert s.p.sent[..n] == s.e.got;
    PayloadOfPrefix(s.p.sent, n, TAG_STDIN);
    var g := Payload(s.e.got, TAG_STDIN);
    assert Payload(s.p.sent, TAG_STDIN) <= s.p.taken;
    assert g == Payload(s.p.sent, TAG_STDIN)[..|g|] == s.p.taken[..|g|] == s.p.stdin[..|g|];
    assert s.e.childStdin == g[..|s.e.childStdin|] == s.p.stdin[..|s.e.childStdin|];
    if s.e.closedByFrame {
      assert s.e.feeding == [] && s.e.childStdin + [] == s.e.childStdin;
      PayloadOfPrefix(s.p.sent[..n], s.p.eofPos, TAG_STDIN);
      assert s.p.sent[..n][..s.p.eofPos] == s.p.sent[..s.p.eofPos];
    }
  }

  /** The signals raised in some steps. */
  function Raised(steps: seq<Step>): seq<int32> {
    if steps == [] then []
    else Raised(steps[..|steps| - 1])
         + if steps[|steps| - 1].SignalRaised? then [steps[|steps| - 1].signum] else []
  }

  /** As long as no signal is raised while four are waiting for the forwarder, every signal raised is accepted; one that
      is raised then is not. */
  lemma {:induction false} RaisedIsAccepted(body: bytes, states: seq<State>, steps: seq<Step>, k: nat)
    requires IsRun(body, states, steps) && k < |states|
    requires forall i :: 0 <= i < k && steps[i].SignalRaised? ==> |states[i].p.queue| < 4
    ensures states[k].p.accepted == Raised(steps[..k])
  {
    hide Enabled, Apply, Preamble;
    if k > 0 {
      RaisedIsAccepted(body, states, steps, k - 1);
      assert steps[..k][..k - 1] == steps[..k - 1];
      AcceptedAfter(states[k - 1], steps[k - 1]);
    }
  }

  lemma AcceptedAfter(s: State, step: Step)
    requires Enabled(s, step)
    ensures Apply(s, step).p.accepted
         == s.p.accepted + if step.SignalRaised? && |s.p.queue| < 4 then [step.signum] else []
  {
    hide FrameBytes, ParseFrame, RequestArrived, Signum, SignalFrame;
    assert s.p.accepted + [] == s.p.accepted;
  }

  /** The steps that nothing outside the system has to cause: neither the proxy's own stdin, nor signals, nor the
      child, nor a failure. */
  predicate Own(step: Step) {
    && !step.StdinDelivers? && !step.StdinEnds? && !step.SignalRaised? && !step.ProxyLeaves? && !step.PathCut?
    && !step.ChildReads? && !step.ChildStopsReading?
  }

  ghost predicate Quiet(s: State) { forall step :: Enabled(s, step) ==> !Own(step) }

  /** The executor is inside a write to a pipe that is full, and the child has not closed its end. */
  predicate Parked(e: Executor) {
    e.feeding != [] && e.reading && |e.childStdin| == e.childTook + e.room
  }

  /** The child has been given all of stdin, as far as it still takes any, and all accepted signals, and its stdin is
      closed if the proxy's has ended. */
  predicate Delivered(s: State, body: bytes) {
    && s.e.stage == Serving(body)
    && (s.e.reading ==> s.e.childStdin == s.p.stdin)
    && s.e.signals == s.p.accepted
    && (!s.p.stdinOpen ==> s.e.closedByFrame)
  }

  /** As long as the proxy and the path last, when no step of the system remains, everything has been delivered exactly
      if the child has closed its stdin or the proxy's stdin is no longer than what the child has read and its pipe
      holds. Otherwise the executor is parked in a write to that pipe. */
  lemma QuietMeansDeliveredIff(body: bytes, s: State)
    requires |body| <= MAX_REQUEST
    requires Inv(s, body) && !s.link.cut && !s.p.left && Quiet(s)
    ensures Delivered(s, body) <==> (s.e.reading ==> |s.p.stdin| <= s.e.childTook + s.e.room)
    ensures Delivered(s, body) <==> !Parked(s.e)
  {
    hide WireInv, StdinInv, SignalInv, Enabled, Payload, SignalsOf;
    StdinIsPrefix(s, body);
    if Parked(s.e) {
      ParkedLacksStdin(s, body);
    } else {
      QuietUnparkedIsDelivered(body, s);
    }
  }

  lemma ParkedLacksStdin(s: State, body: bytes)
    requires Inv(s, body) && Parked(s.e)
    ensures s.e.childStdin != s.p.stdin
  {
    hide Payload, SignalsOf, WireInv, StdinInv, SignalInv;
    StdinIsPrefix(s, body);
  }

  lemma QuietUnparkedIsDelivered(body: bytes, s: State)
    requires |body| <= MAX_REQUEST
    requires Inv(s, body) && !s.link.cut && !s.p.left && Quiet(s) && !Parked(s.e)
    ensures Delivered(s, body)
  {
    hide FramesBytes, FrameBytes, Payload, SignalsOf, BE32, FromBE32, U32Of, Signum, ParseFrame, RequestArrived;
    NothingFed(s);
    QuietPath(s);
    QuietProxy(s);
    QuietExecutor(s, body);
    assert s.e.got == s.p.sent;
    assert Payload(s.p.sent, TAG_STDIN) + [] == Payload(s.p.sent, TAG_STDIN);
    assert s.e.childStdin + [] == s.e.childStdin;
    assert SignalsOf(s.p.sent) + [] + [] == SignalsOf(s.p.sent);
  }

  lemma NothingFed(s: State)
    requires Quiet(s) && !Parked(s.e) && |s.e.childStdin| <= s.e.childTook + s.e.room
    ensures s.e.feeding == []
  {
    hide ParseFrame, RequestArrived;
    assert !Enabled(s, FeedSome(1)) && !Enabled(s, FeedFails);
  }

  lemma QuietProxy(s: State)
    requires Quiet(s) && !s.p.left && s.p.taken <= s.p.stdin && s.link.wire == [] && s.link.window > 0
    ensures s.p.lock.Free? && s.p.hand == [] && s.p.signal.None? && s.p.queue == []
    ensures !s.p.eofSent ==> s.p.stdinOpen
    ensures s.p.eofSent || s.p.taken == s.p.stdin
  {
    hide ParseFrame, RequestArrived;
    assert !Enabled(s, Release) && !Enabled(s, WriteSome(1));
    assert !Enabled(s, AcquireStdin) && !Enabled(s, AcquireEof);
    assert !Enabled(s, TakeSignal) && !Enabled(s, AcquireSignal);
    assert !Enabled(s, PumpReads(1));
  }

  lemma QuietPath(s: State)
    requires Quiet(s) && !s.link.cut && s.e.feeding == [] && s.link.window > 0
    requires !s.e.stage.Ended?
    ensures s.link.Drained()
  {
    hide ParseFrame, RequestArrived;
    assert !Enabled(s, ExecutorFills(1)) && !Enabled(s, ReadKind);
    assert s.link.arrived == [];
    assert !Enabled(s, BridgeWrites(1));
    assert !Enabled(s, BridgeReads(1));
  }

  lemma RequestReadable(s: State, body: bytes)
    requires |body| <= MAX_REQUEST
    requires s.e.got <= s.p.sent && s.e.stage.AwaitRequest?
    requires s.e.buf == BE32(U32Of(|body|)) + body + Frames(s)
    ensures Enabled(s, ReadRequest)
  {
    hide FramesBytes, BE32, FromBE32;
    var rest := body + Frames(s);
    assert s.e.buf == BE32(U32Of(|body|)) + rest;
    BE32RoundTrip(|body|, rest);
  }

  lemma QuietExecutor(s: State, body: bytes)
    requires |body| <= MAX_REQUEST
    requires WireInv(s, body) && Quiet(s) && !s.link.cut && !s.p.left
    requires s.p.lock.Free? && s.link.Drained() && s.e.feeding == []
    ensures s.e.stage == Serving(body) && s.e.got == s.p.sent
  {
    hide FramesBytes, FrameBytes, ParseFrame, BE32, FromBE32;
    assert Unread(s) == s.e.buf + [] + [] == s.e.buf;
    match s.e.stage
    case AwaitKind =>
    case AwaitRequest => RequestReadable(s, body);
    case Serving(_) =>
      assert !Enabled(s, ReadControl);
      var fs := s.p.sent[|s.e.got|..];
      assert s.e.buf + [] == FramesBytes(fs);
      ParseArrived(fs, s.e.buf, []);
      if fs != [] {
        FirstFrameFits(fs);
      }
    case Ended =>
  }

  // ---- the end of the control stream -------------------------------------------------------------------

  /** When the executor takes the control stream for ended on a path that lasts, and the proxy left no frame half
      written, it has taken every frame the proxy sent. */
  lemma EndTakesAll(body: bytes, s: State)
    requires Inv(s, body) && Enabled(s, ControlEof) && !s.link.cut && Rest(s.p.lock) == []
    ensures s.p.left && s.e.got == s.p.sent && s.e.signals == SignalsOf(s.p.sent)
    ensures s.e.reading ==> s.e.childStdin == Payload(s.p.sent, TAG_STDIN)
    ensures Apply(s, ControlEof).e.stdinClosed
  {
    hide FramesBytes, FrameBytes, ParseFrame, Payload, SignalsOf, StdinInv, SignalInv;
    assert Unread(s) == s.e.buf + [] + [] == s.e.buf;
    var fs := s.p.sent[|s.e.got|..];
    assert s.e.buf + [] == FramesBytes(fs);
    ParseArrived(fs, s.e.buf, []);
    if fs != [] {
      FirstFrameFits(fs);
    }
    assert s.e.childStdin + [] == s.e.childStdin;
  }

  /** Once the proxy has left or the path is cut, a system at rest has closed the child's stdin, unless the executor is
      parked in a write to it. */
  lemma QuietMeansClosed(body: bytes, s: State)
    requires Inv(s, body) && Quiet(s) && (s.link.cut || s.p.left) && !Parked(s.e)
    ensures !s.e.stage.Serving?
  {
    hide ParseFrame, RequestArrived, FramesBytes, Payload, SignalsOf, StdinInv, SignalInv;
    NothingFed(s);
    assert !Enabled(s, ExecutorFills(1)) && !Enabled(s, ReadControl) && !Enabled(s, ControlEof);
    assert !Enabled(s, BridgeWrites(1)) && !Enabled(s, BridgeReads(1));
  }

  // ---- quiet states are reached ------------------------------------------------------------------------

  function StageWork(stage: Stage): nat {
    match stage
    case AwaitKind => 3
    case AwaitRequest => 2
    case Serving(_) => 1
    case Ended => 0
  }

  function ProxyWork(p: Proxy): int {
    33 * (|p.stdin| - |p.taken|) + 32 * |p.hand| + (if p.eofSent then 0 else 50)
    + 51 * |p.queue| + (if p.signal.Some? then 50 else 0) + (if p.lock.Held? then 1 + 5 * |p.lock.rest| else 0)
  }

  function PathWork(l: Link): nat { 4 * |l.wire| + 3 * |l.held| + 2 * |l.arrived| }

  function ExecutorWork(e: Executor): nat { |e.buf| + |e.feeding| + StageWork(e.stage) }

  /** Work left: every byte weighs more the further it is from the child's pipe. */
  function Work(s: State): int { ProxyWork(s.p) + PathWork(s.link) + ExecutorWork(s.e) }

  lemma ProxyStepsReduceWork(s: State, step: Step)
    requires |s.p.taken| <= |s.p.stdin| && Enabled(s, step)
    requires step.PumpReads? || step.AcquireStdin? || step.AcquireEof? || step.TakeSignal? || step.AcquireSignal?
             || step.Release?
    ensures 0 <= ProxyWork(Apply(s, step).p) < ProxyWork(s.p)
    ensures Apply(s, step).link == s.link && Apply(s, step).e == s.e
  {
    hide BE32, U32Of, ParseFrame, RequestArrived;
    match step
    case PumpReads(k) => assert |s.p.stdin[..|s.p.taken| + k]| == |s.p.taken| + k;
    case _ =>
  }

  lemma WriteReducesWork(s: State, k: nat)
    requires |s.p.taken| <= |s.p.stdin| && Enabled(s, WriteSome(k))
    ensures var t := Apply(s, WriteSome(k));
            0 <= ProxyWork(t.p) && ProxyWork(t.p) + PathWork(t.link) < ProxyWork(s.p) + PathWork(s.link) && t.e == s.e
  {
    hide ParseFrame, RequestArrived;
    assert |s.p.lock.rest[k..]| == |s.p.lock.rest| - k && |s.p.lock.rest[..k]| == k;
  }

  lemma PathStepsReduceWork(s: State, step: Step)
    requires Enabled(s, step)
    requires step.BridgeReads? || step.BridgeWrites? || step.ExecutorFills? || step.ReadKind?
    ensures var t := Apply(s, step);
            PathWork(t.link) + ExecutorWork(t.e) < PathWork(s.link) + ExecutorWork(s.e) && t.p == s.p
  {
    hide ParseFrame, RequestArrived;
    match step
    case BridgeReads(k) => assert |s.link.wire[k..]| == |s.link.wire| - k && |s.link.wire[..k]| == k;
    case BridgeWrites(k) => assert |s.link.held[k..]| == |s.link.held| - k && |s.link.held[..k]| == k;
    case ExecutorFills(k) => assert |s.link.arrived[k..]| == |s.link.arrived| - k && |s.link.arrived[..k]| == k;
    case ReadKind => assert |s.link.arrived[1..]| == |s.link.arrived| - 1;
  }

  lemma ExecutorStepsReduceWork(s: State, step: Step)
    requires Enabled(s, step)
    requires step.ReadRequest? || step.ReadControl? || step.FeedSome? || step.FeedFails? || step.ControlEof?
    ensures ExecutorWork(Apply(s, step).e) < ExecutorWork(s.e)
    ensures Apply(s, step).link == s.link && Apply(s, step).p == s.p
  {
    hide FromBE32, ParseFrame, Signum;
    if step.ReadControl? {
      ParseShrinks(s.e.buf);
    }
  }

  /** Every step of the proxy, the bridge or the executor leaves strictly less work, so that without new input, signals
      or reads by the child a quiet state is reached. */
  lemma OwnStepsReduceWork(body: bytes, s: State, step: Step)
    requires Inv(s, body) && Enabled(s, step) && Own(step)
    ensures 0 <= Work(Apply(s, step)) < Work(s)
  {
    hide WireInv, SignalInv, ExecutorInv, Payload, Apply, Enabled, ProxyWork, PathWork, ExecutorWork;
    assert 0 <= ProxyWork(s.p) by {
      NonNegativeProxyWork(s.p);
    }
    match step
    case WriteSome(k) => WriteReducesWork(s, k);
    case BridgeReads(_) => PathStepsReduceWork(s, step);
    case BridgeWrites(_) => PathStepsReduceWork(s, step);
    case ExecutorFills(_) => PathStepsReduceWork(s, step);
    case ReadKind => PathStepsReduceWork(s, step);
    case ReadRequest => ExecutorStepsReduceWork(s, step);
    case ReadControl => ExecutorStepsReduceWork(s, step);
    case FeedSome(_) => ExecutorStepsReduceWork(s, step);
    case FeedFails => ExecutorStepsReduceWork(s, step);
    case ControlEof => ExecutorStepsReduceWork(s, step);
    case _ => ProxyStepsReduceWork(s, step);
  }

  lemma NonNegativeProxyWork(p: Proxy)
    requires |p.taken| <= |p.stdin|
    ensures 0 <= ProxyWork(p)
  {
  }

  // ---- a parked executor -------------------------------------------------------------------------------

  /** As long as the child neither reads nor closes its end, a parked executor stays parked, takes no further byte off
      the path, no further frame, and delivers no further signal, whatever else happens. */
  lemma {:induction false} ParkedTakesNothing(body: bytes, states: seq<State>, steps: seq<Step>, i: nat, j: nat)
    requires IsRun(body, states, steps) && i <= j < |states| && Parked(states[i].e)
    requires forall k :: i <= k < j ==> !(steps[k].ChildReads? && steps[k].k > 0) && !steps[k].ChildStopsReading?
    ensures Parked(states[j].e) && states[j].e.got == states[i].e.got && states[j].e.signals == states[i].e.signals
    ensures states[j].e.buf == states[i].e.buf
    decreases j - i
  {
    hide Apply, Enabled, Parked;
    if i < j {
      ParkedTakesNothing(body, states, steps, i, j - 1);
      RunKeepsInv(body, states, steps, j - 1);
      ParkedStep(body, states[j - 1], steps[j - 1]);
    }
  }

  lemma ParkedStep(body: bytes, s: State, step: Step)
    requires Inv(s, body) && Enabled(s, step) && Parked(s.e)
    requires !(step.ChildReads? && step.k > 0) && !step.ChildStopsReading?
    ensures Parked(Apply(s, step).e)
    ensures Apply(s, step).e.got == s.e.got && Apply(s, step).e.signals == s.e.signals
    ensures Apply(s, step).e.buf == s.e.buf
  {
    hide FrameBytes, ParseFrame, Payload, SignalsOf, RequestArrived, WireInv, StdinInv, SignalInv, Signum;
  }

  ghost predicate EndsIn(body: bytes, states: seq<State>, steps: seq<Step>, s: State) {
    IsRun(body, states, steps) && states[|steps|] == s
  }

  /** Some run comes to `s`. */
  ghost predicate Reachable(body: bytes, s: State) { exists states, steps :: EndsIn(body, states, steps, s) }

  lemma StartIsReachable(body: bytes, window: nat, room: nat)
    requires |body| <= MAX_REQUEST && window > 0 && room > 0
    ensures Reachable(body, Start(body, window, room))
  {
    assert EndsIn(body, [Start(body, window, room)], [], Start(body, window, room));
  }

  lemma Go(body: bytes, s: State, step: Step, t: State)
    requires Reachable(body, s) && Enabled(s, step) && Apply(s, step) == t
    ensures Reachable(body, t)
  {
    hide Enabled, Apply;
    var states, steps :| EndsIn(body, states, steps, s);
    assert EndsIn(body, states + [t], steps + [step], t);
  }

  lemma ReachableKeepsInv(body: bytes, s: State)
    requires Reachable(body, s)
    ensures Inv(s, body) && |body| <= MAX_REQUEST && MainGoesFirst(s.p)
  {
    hide Inv, MainGoesFirst;
    var states, steps :| EndsIn(body, states, steps, s);
    RunKeepsInv(body, states, steps, |steps|);
    MainGoesFirstInRuns(body, states, steps, |steps|);
  }

  /** Until the request is written, no control frame is begun, no stdin read and no signal accepted. */
  predicate MainGoesFirst(p: Proxy) { Holds(p.lock, Main) ==> p.sent == [] && p.taken == [] && p.accepted == [] }

  lemma {:induction false} MainGoesFirstInRuns(body: bytes, states: seq<State>, steps: seq<Step>, k: nat)
    requires IsRun(body, states, steps) && k < |states|
    ensures MainGoesFirst(states[k].p)
  {
    hide Enabled, Apply, Preamble;
    if k > 0 {
      MainGoesFirstInRuns(body, states, steps, k - 1);
      MainStaysFirst(states[k - 1], steps[k - 1]);
    }
  }

  lemma MainStaysFirst(s: State, step: Step)
    requires MainGoesFirst(s.p) && Enabled(s, step)
    ensures MainGoesFirst(Apply(s, step).p)
  {
    hide FrameBytes, ParseFrame, RequestArrived, Signum, SignalFrame;
  }

  /** Nothing but the system itself has done anything between `s` and `t`, and a parked executor stayed parked. */
  predicate OnItsOwn(s: State, t: State) {
    && t.p.stdin == s.p.stdin && t.p.stdinOpen == s.p.stdinOpen && t.p.accepted == s.p.accepted
    && t.p.left == s.p.left && t.link.cut == s.link.cut
    && t.link.window == s.link.window && t.e.room == s.e.room
    && t.e.reading == s.e.reading && t.e.childTook == s.e.childTook
    && (Parked(s.e) ==> Parked(t.e) && t.e.signals == s.e.signals)
  }

  lemma OwnStepIsOnItsOwn(body: bytes, s: State, step: Step)
    requires Inv(s, body) && Enabled(s, step) && Own(step)
    ensures OnItsOwn(s, Apply(s, step))
  {
    hide FrameBytes, ParseFrame, Payload, SignalsOf, RequestArrived, Inv, Signum;
    if Parked(s.e) {
      ParkedStep(body, s, step);
    }
  }

  /** Left to itself, the system comes to rest. */
  lemma {:induction false} ComesToRest(body: bytes, s: State) returns (t: State)
    requires Reachable(body, s)
    ensures Reachable(body, t) && Quiet(t) && OnItsOwn(s, t)
    decreases Work(s)
  {
    hide Reachable, Inv, Enabled, Apply, Own, Work;
    ReachableKeepsInv(body, s);
    t := s;
    if !Quiet(s) {
      var step :| Enabled(s, step) && Own(step);
      OwnStepsReduceWork(body, s, step);
      OwnStepIsOnItsOwn(body, s, step);
      Go(body, s, step, Apply(s, step));
      t := ComesToRest(body, Apply(s, step));
    }
  }

  lemma ParkedIsRunning(body: bytes, s: State)
    requires Inv(s, body) && MainGoesFirst(s.p) && Parked(s.e) && !s.p.left
    ensures Running(s.p)
  {
    hide Payload, SignalsOf, StdinInv, SignalInv;
    assert s.e.feeding != [] && Payload(s.e.got, TAG_STDIN) != [];
    assert Payload([], TAG_STDIN) == [] by {
      NoPayload();
    }
  }

  lemma NoPayload()
    ensures Payload([], TAG_STDIN) == []
  {
  }

  /** For any request, any input that does not fit the child's pipe, any buffers and any signal raised once the pipe is
      full, a state can be reached in which nothing of the system moves, the proxy, the path and the child's end of the
      pipe are all there, and the signal was accepted but not delivered. */
  lemma SignalStuckBehindStdin(body: bytes, d: bytes, n: int32, window: nat, room: nat) returns (s: State)
    requires |body| <= MAX_REQUEST && window > 0 && 0 < room < |d|
    ensures Reachable(body, s) && Quiet(s) && !s.link.cut && !s.p.left && Parked(s.e)
    ensures s.p.stdin == d && s.e.childStdin == d[..room] && s.p.accepted == [n] && s.e.signals == []
    ensures s.link.window == window && s.e.room == room
  {
    hide Reachable, Inv, Quiet, Running, Parked, Delivered, Payload, SignalsOf, Preamble;
    StartIsReachable(body, window, room);
    var s0 := Start(body, window, room);
    var s1 := s0.(p := s0.p.(stdin := [] + d));
    Go(body, s0, StdinDelivers(d), s1);
    var full := ComesToRest(body, s1);
    ReachableKeepsInv(body, full);
    QuietMeansDeliveredIff(body, full);
    ParkedIsRunning(body, full);
    NothingAccepted(body, full);
    var raised := full.(p := full.p.(accepted := [] + [n], queue := [] + [n]));
    Go(body, full, SignalRaised(n), raised);
    s := ComesToRest(body, raised);
    ReachableKeepsInv(body, s);
    StdinIsPrefix(s, body);
    assert |s.e.childStdin| == room by {
      FullPipe(s.e);
    }
    assert s.e.childStdin == d[..room];
  }

  lemma NothingAccepted(body: bytes, s: State)
    requires Inv(s, body) && s.p.accepted == []
    ensures s.p.queue == [] && s.e.signals == []
  {
    hide Payload, SignalsOf, WireInv, StdinInv, ExecutorInv;
    GotIsPrefix(s, body);
  }

  lemma FullPipe(e: Executor)
    requires Parked(e)
    ensures |e.childStdin| == e.childTook + e.room
  {
  }

  // ---- everything can arrive ---------------------------------------------------------------------------

  /** The child reads whenever its pipe is full: all of stdin arrives, whatever its length and the pipe's. */
  lemma {:induction false} ReadsToTheEnd(body: bytes, s: State) returns (t: State)
    requires Reachable(body, s) && Quiet(s) && !s.link.cut && !s.p.left && s.e.reading
    ensures Reachable(body, t) && Quiet(t) && !t.link.cut && !t.p.left && t.e.reading && Delivered(t, body)
    ensures t.p.stdin == s.p.stdin && t.p.stdinOpen == s.p.stdinOpen && t.p.accepted == s.p.accepted
    ensures t.e.room == s.e.room && t.link.window == s.link.window
    decreases |s.p.stdin| - s.e.childTook
  {
    hide Reachable, Inv, Quiet, Delivered, Enabled, Apply;
    ReachableKeepsInv(body, s);
    QuietMeansDeliveredIff(body, s);
    StdinIsPrefix(s, body);
    TookIsInside(s, body);
    t := s;
    if !Delivered(s, body) {
      FullPipe(s.e);
      var u := s.(e := s.e.(childTook := s.e.childTook + s.e.room));
      ChildCanRead(s, s.e.room);
      Go(body, s, ChildReads(s.e.room), u);
      var v := ComesToRest(body, u);
      ReachableKeepsInv(body, v);
      StdinIsPrefix(v, body);
      TookIsInside(v, body);
      t := ReadsToTheEnd(body, v);
    }
  }

  lemma TookIsInside(s: State, body: bytes)
    requires Inv(s, body)
    ensures s.e.childTook <= |s.e.childStdin| && s.e.room > 0
  {
    hide Payload, SignalsOf, WireInv, StdinInv, SignalInv;
  }

  lemma ChildCanRead(s: State, k: nat)
    requires s.e.reading && s.e.childTook + k <= |s.e.childStdin|
    ensures Enabled(s, ChildReads(k)) && Apply(s, ChildReads(k)) == s.(e := s.e.(childTook := s.e.childTook + k))
  {
  }

  /** A system at rest with everything delivered takes one more signal and delivers it. */
  lemma OneMoreSignal(body: bytes, s: State, n: int32) returns (t: State)
    requires Reachable(body, s) && Quiet(s) && !s.link.cut && !s.p.left && s.e.reading && Delivered(s, body)
    ensures Reachable(body, t) && Quiet(t) && !t.link.cut && !t.p.left && t.e.reading && Delivered(t, body)
    ensures t.p.stdin == s.p.stdin && t.p.stdinOpen == s.p.stdinOpen && t.p.accepted == s.p.accepted + [n]
    ensures t.e.room == s.e.room && t.link.window == s.link.window
  {
    hide Reachable, Inv, Quiet, Delivered, Enabled, Apply;
    ReachableKeepsInv(body, s);
    RestedIsIdle(body, s);
    var u := s.(p := s.p.(accepted := s.p.accepted + [n], queue := [] + [n]));
    SignalCanCome(s, n);
    Go(body, s, SignalRaised(n), u);
    var v := ComesToRest(body, u);
    t := ReadsToTheEnd(body, v);
  }

  lemma SignalCanCome(s: State, n: int32)
    requires Running(s.p) && s.p.queue == []
    ensures Enabled(s, SignalRaised(n))
    ensures Apply(s, SignalRaised(n))
         == s.(p := s.p.(accepted := s.p.accepted + [n], queue := [] + [n]))
  {
  }

  lemma RestedIsIdle(body: bytes, s: State)
    requires |body| <= MAX_REQUEST && Inv(s, body)
    requires Quiet(s) && !s.link.cut && !s.p.left && Delivered(s, body)
    ensures Running(s.p) && s.p.queue == []
  {
    hide Quiet, Payload, SignalsOf, FramesBytes, Frames, Unread, Inv;
    QuietMeansDeliveredIff(body, s);
    BoundsOfInv(s, body);
    NothingFed(s);
    QuietPath(s);
    QuietProxy(s);
  }

  lemma BoundsOfInv(s: State, body: bytes)
    requires Inv(s, body)
    ensures |s.e.childStdin| <= s.e.childTook + s.e.room && s.link.window > 0 && s.p.taken <= s.p.stdin
  {
    hide Payload, SignalsOf, FramesBytes, Frames, Unread;
  }

  lemma {:induction false} SignalsCanArrive(body: bytes, s: State, ns: seq<int32>) returns (t: State)
    requires Reachable(body, s) && Quiet(s) && !s.link.cut && !s.p.left && s.e.reading && Delivered(s, body)
    ensures Reachable(body, t) && Quiet(t) && !t.link.cut && !t.p.left && t.e.reading && Delivered(t, body)
    ensures t.p.stdin == s.p.stdin && t.p.stdinOpen == s.p.stdinOpen && t.p.accepted == s.p.accepted + ns
    ensures t.e.room == s.e.room && t.link.window == s.link.window
  {
    hide Reachable, Quiet, Delivered;
    if ns == [] {
      t := s;
    } else {
      var u := SignalsCanArrive(body, s, ns[..|ns| - 1]);
      t := OneMoreSignal(body, u, ns[|ns| - 1]);
      assert s.p.accepted + ns[..|ns| - 1] + [ns[|ns| - 1]] == s.p.accepted + ns;
    }
  }

  /** For any request, any input, any list of signals and buffers of any size, a state can be reached in which the child
      has had the request's all: the whole of stdin, closed at its end, and every signal in order. */
  lemma InputCanArrive(body: bytes, d: bytes, ns: seq<int32>, window: nat, room: nat) returns (s: State)
    requires |body| <= MAX_REQUEST && window > 0 && room > 0
    ensures Reachable(body, s) && s.link.window == window && s.e.room == room
    ensures s.e.stage == Serving(body) && s.e.childStdin == d && s.e.closedByFrame && s.e.signals == ns
  {
    hide Reachable, Inv, Quiet, Preamble;
    StartIsReachable(body, window, room);
    var s0 := Start(body, window, room);
    var s1 := s0.(p := s0.p.(stdin := [] + d));
    Go(body, s0, StdinDelivers(d), s1);
    var s2 := s1.(p := s1.p.(stdinOpen := false));
    Go(body, s1, StdinEnds, s2);
    var s3 := ComesToRest(body, s2);
    var s4 := ReadsToTheEnd(body, s3);
    s := SignalsCanArrive(body, s4, ns);
    assert [] + ns == ns;
  }

  // ---- back-pressure -----------------------------------------------------------------------------------

  predicate LinkBounded(l: Link) { |l.wire| <= l.window && |l.held| <= l.window && |l.arrived| <= l.window }

  /** No buffer holds more than it has room for; the pump and the forwarder take nothing new while a frame of theirs is
      being written. */
  predicate Bounded(s: State) {
    && LinkBounded(s.link) && |s.p.hand| <= PUMP_BUFFER && |s.p.queue| <= 4
    && (Holds(s.p.lock, StdinPump) ==> s.p.hand == [])
    && (Holds(s.p.lock, Forwarder) ==> s.p.signal.None?)
    && |s.e.childStdin| <= s.e.childTook + s.e.room
  }

  lemma StepKeepsBounds(s: State, step: Step)
    requires Bounded(s) && s.link.Valid() && Enabled(s, step)
    ensures Bounded(Apply(s, step))
  {
    hide ParseFrame, FrameBytes, RequestArrived, Signum, SignalFrame;
    match step
    case BridgeReads(k) => assert |s.link.wire[..k]| == k;
    case _ =>
  }

  lemma {:induction false} BuffersAreBounded(body: bytes, states: seq<State>, steps: seq<Step>, k: nat)
    requires IsRun(body, states, steps) && k < |states|
    ensures Bounded(states[k])
  {
    hide Enabled, Apply, Bounded, Inv, Preamble;
    if k == 0 {
      StartIsBounded(body, states[0]);
    } else {
      BuffersAreBounded(body, states, steps, k - 1);
      RunKeepsInv(body, states, steps, k - 1);
      LinkIsValid(body, states[k - 1]);
      StepKeepsBounds(states[k - 1], steps[k - 1]);
    }
  }

  lemma StartIsBounded(body: bytes, s: State)
    requires s == Start(body, s.link.window, s.e.room)
    ensures Bounded(s)
  {
    hide Preamble;
  }

  lemma LinkIsValid(body: bytes, s: State)
    requires Inv(s, body)
    ensures s.link.Valid()
  {
    hide StdinInv, SignalInv, ExecutorInv;
  }
}
