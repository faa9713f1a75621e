/** The executor-to-proxy direction of a streamed subprocess: two pumps and an exit writer share one stream
    under a mutex, the bridge re-chunks it, the proxy demultiplexes it. A state machine over every interleaving,
    with every read and write cut into arbitrary pieces, and with writes that wait for room. */
module ExecDownlink {
  import opened Bytes
  import opened ExecProto
  import opened ExecLink

  /** A subprocess tree: what it has written so far, which of its output pipes are still open for writing, and
      how its leader ended. */
  datatype Child = Child(out: bytes, err: bytes, outOpen: bool, errOpen: bool, exited: bool, code: int)

  /** `taken` is what this pump has read off its pipe; `hand` is the part of it waiting for the mutex. */
  datatype PumpState = PumpState(taken: bytes, hand: bytes, finished: bool)

  datatype Who = OutPump | ErrPump | ExitWriter

  /** The write mutex: its holder and the bytes of the holder's frame not yet written. */
  datatype Lock = Free | Held(who: Who, rest: bytes)

  /** `putting` is the rest of a frame the proxy is writing to its own stdout or, with `puttingErr`, stderr. */
  datatype Proxy = Proxy(
    rbuf: bytes, got: seq<Frame>, putting: bytes, puttingErr: bool, stdout: bytes, stderr: bytes,
    status: Option<int>, sawExit: bool)

  datatype State = State(
    child: Child,
    out: PumpState,
    err: PumpState,
    lock: Lock,
    sent: seq<Frame>,  // every frame whose writing has begun
    exitSent: bool,
    closed: bool,      // serveExec has returned and closed the stream
    link: Link,
    proxy: Proxy,
    outRoom: nat,      // what the proxy's own stdout and stderr still take before a write to them waits
    errRoom: nat)

  datatype Step =
    | ChildWrites(stderr: bool, data: bytes)
    | ChildCloses(stderr: bool)
    | ChildExits(code: int)
    | PumpReads(stderr: bool, k: nat)
    | PumpEnds(stderr: bool)
    | Acquire(who: Who)
    | WriteSome(k: nat)
    | Release
    | BridgeReads(k: nat)
    | BridgeWrites(k: nat)
    | PathCut
    | ProxyFills(k: nat)
    | ProxyFrame
    | ProxyPuts(k: nat)
    | ProxyEof
    | SinkDrains(stderr: bool, k: nat)

  function Start(window: nat, outRoom: nat, errRoom: nat): State {
    State(Child([], [], true, true, false, 0), PumpState([], [], false), PumpState([], [], false),
          Free, [], false, false, NewLink(window), Proxy([], [], [], false, [], [], None, false), outRoom, errRoom)
  }

  function Room(s: State, stderr: bool): nat { if stderr then s.errRoom else s.outRoom }

  function Rest(l: Lock): bytes { if l.Held? then l.rest else [] }

  function PumpOf(s: State, stderr: bool): PumpState { if stderr then s.err else s.out }

  function WithPump(s: State, stderr: bool, p: PumpState): State {
    if stderr then s.(err := p) else s.(out := p)
  }

  function Written(s: State, stderr: bool): bytes { if stderr then s.child.err else s.child.out }

  predicate Open(s: State, stderr: bool) { if stderr then s.child.errOpen else s.child.outOpen }

  function PumpName(stderr: bool): Who { if stderr then ErrPump else OutPump }

  function TagOf(stderr: bool): byte { if stderr then TAG_STDERR else TAG_STDOUT }

  /** A pump is back in its read loop: nothing in hand and not inside `writeChunk`. */
  predicate Reading(s: State, stderr: bool) {
    && PumpOf(s, stderr).hand == []
    && !PumpOf(s, stderr).finished
    && !(s.lock.Held? && s.lock.who == PumpName(stderr))
  }

  predicate Enabled(s: State, step: Step) {
    match step
    case ChildWrites(e, _) => Open(s, e)
    case ChildCloses(e) => Open(s, e)
    case ChildExits(_) => !s.child.exited
    case PumpReads(e, k) =>
      Reading(s, e) && 0 < k <= PUMP_BUFFER && |PumpOf(s, e).taken| + k <= |Written(s, e)|
    case PumpEnds(e) => Reading(s, e) && !Open(s, e) && |PumpOf(s, e).taken| == |Written(s, e)|
    case Acquire(who) =>
      && s.lock.Free?
      && (match who
          case OutPump => s.out.hand != []
          case ErrPump => s.err.hand != []
          case ExitWriter => s.out.finished && s.err.finished && s.child.exited && !s.exitSent)
    case WriteSome(k) => s.lock.Held? && 0 < k <= |s.lock.rest| && s.link.Takes(k)
    case Release => s.lock.Held? && s.lock.rest == []
    case BridgeReads(k) => !s.link.cut && s.link.held == [] && 0 < k <= |s.link.wire|
    case BridgeWrites(k) => 0 < k <= |s.link.held| && s.link.Forwards(k)
    case PathCut => !s.link.cut
    case ProxyFills(k) => s.proxy.status.None? && s.proxy.putting == [] && 0 < k <= |s.link.arrived|
    case ProxyFrame => s.proxy.status.None? && s.proxy.putting == [] && ParseFrame(s.proxy.rbuf).Got?
    case ProxyPuts(k) => 0 < k <= |s.proxy.putting| && k <= Room(s, s.proxy.puttingErr)
    case SinkDrains(_, _) => true
    case ProxyEof =>
      && s.proxy.status.None? && s.proxy.putting == [] && !ParseFrame(s.proxy.rbuf).Got?
      && s.link.Drained() && (s.link.cut || s.closed)
  }

  function FrameFor(s: State, who: Who): Frame {
    match who
    case OutPump => Chunk(TAG_STDOUT, s.out.hand)
    case ErrPump => Chunk(TAG_STDERR, s.err.hand)
    case ExitWriter => ExitFrame(s.child.code)
  }

  function Consume(p: Proxy, f: Frame, rest: bytes): Proxy {
    var q := p.(rbuf := rest, got := p.got + [f]);
    if f.tag == TAG_STDOUT then q.(putting := f.data, puttingErr := false)
    else if f.tag == TAG_STDERR then q.(putting := f.data, puttingErr := true)
    else if f.tag == TAG_EXIT then q.(status := Some(StatusOf(f)), sawExit := true)
    else q
  }

  function Apply(s: State, step: Step): State
    requires Enabled(s, step)
  {
    match step
    case ChildWrites(e, d) =>
      s.(child := if e then s.child.(err := s.child.err + d) else s.child.(out := s.child.out + d))
    case ChildCloses(e) => s.(child := if e then s.child.(errOpen := false) else s.child.(outOpen := false))
    case ChildExits(code) => s.(child := s.child.(exited := true, code := code))
    case PumpReads(e, k) =>
      var p, all := PumpOf(s, e), Written(s, e);
      var n := |p.taken|;
      WithPump(s, e, PumpState(all[..n + k], all[n..n + k], false))
    case PumpEnds(e) => WithPump(s, e, PumpOf(s, e).(finished := true))
    case Acquire(who) =>
      var f := FrameFor(s, who);
      var t := s.(lock := Held(who, FrameBytes(f)), sent := s.sent + [f]);
      (match who
       case OutPump => t.(out := t.out.(hand := []))
       case ErrPump => t.(err := t.err.(hand := []))
       case ExitWriter => t.(exitSent := true))
    case WriteSome(k) =>
      s.(lock := s.lock.(rest := s.lock.rest[k..]), link := s.link.Send(s.lock.rest[..k]))
    case Release => s.(lock := Free, closed := s.closed || s.lock.who.ExitWriter?)
    case BridgeReads(k) => s.(link := s.link.BridgeIn(k))
    case BridgeWrites(k) => s.(link := s.link.BridgeOut(k))
    case PathCut => s.(link := s.link.Cut())
    case ProxyFills(k) =>
      s.(proxy := s.proxy.(rbuf := s.proxy.rbuf + s.link.arrived[..k]), link := s.link.Receive(k))
    case ProxyFrame =>
      var r := ParseFrame(s.proxy.rbuf);
      s.(proxy := Consume(s.proxy, r.frame, r.rest))
    case ProxyPuts(k) =>
      var p := s.proxy;
      var d, q := p.putting[..k], p.(putting := p.putting[k..]);
      if p.puttingErr then s.(proxy := q.(stderr := p.stderr + d), errRoom := s.errRoom - k)
      else s.(proxy := q.(stdout := p.stdout + d), outRoom := s.outRoom - k)
    case SinkDrains(e, k) => if e then s.(errRoom := s.errRoom + k) else s.(outRoom := s.outRoom + k)
    case ProxyEof =>
      s.(proxy := s.proxy.(status := Some(if ParseFrame(s.proxy.rbuf).End? then 0 else 127)))
  }

  ghost predicate IsRun(states: seq<State>, steps: seq<Step>) {
    && |states| == |steps| + 1
    && states[0] == Start(states[0].link.window, states[0].outRoom, states[0].errRoom) && states[0].link.window > 0
    && forall i :: 0 <= i < |steps| ==> Enabled(states[i], steps[i]) && states[i + 1] == Apply(states[i], steps[i])
  }

  // ---- what every step keeps ----------------------------------------------------------------------------

  function Unread(s: State): bytes { s.proxy.rbuf + s.link.InFlight() + Rest(s.lock) }

  /** Byte conservation: the frames begun and not yet read by the proxy are, byte for byte, what sits in the
      proxy's buffer, on the path and in the mutex holder's hands. */
  ghost predicate WireInv(s: State) {
    && AllSendable(s.sent)
    && s.link.Valid()
    && s.proxy.got <= s.sent
    && FramesBytes(s.sent[|s.proxy.got|..]) == Unread(s)
  }

  ghost predicate PumpInv(s: State, stderr: bool) {
    var p := PumpOf(s, stderr);
    && p.taken <= Written(s, stderr)
    && Payload(s.sent, TagOf(stderr)) + p.hand == p.taken
    && |p.hand| <= PUMP_BUFFER
    && (p.finished ==> !Open(s, stderr) && p.taken == Written(s, stderr) && p.hand == [])
  }

  ghost predicate NoExit(fs: seq<Frame>) { forall i :: 0 <= i < |fs| ==> fs[i].tag != TAG_EXIT }

  ghost predicate ExitInv(s: State) {
    && (!s.exitSent ==> NoExit(s.sent))
    && (s.exitSent ==>
          && s.out.finished && s.err.finished && s.child.exited
          && s.sent != [] && s.sent[|s.sent| - 1] == ExitFrame(s.child.code)
          && NoExit(s.sent[..|s.sent| - 1]))
    && (s.lock.Held? && s.lock.who.ExitWriter? ==> s.exitSent)
    && (s.closed ==> s.exitSent && s.lock.Free?)
    && (s.exitSent ==> s.closed || (s.lock.Held? && s.lock.who.ExitWriter?))
  }

  function Putting(p: Proxy, stderr: bool): bytes { if p.puttingErr == stderr then p.putting else [] }

  ghost predicate ProxyInv(s: State) {
    var p := s.proxy;
    && p.stdout + Putting(p, false) == Payload(p.got, TAG_STDOUT)
    && p.stderr + Putting(p, true) == Payload(p.got, TAG_STDERR)
    && (p.status.Some? ==> p.putting == [])
    && (!p.sawExit ==> NoExit(p.got))
    && (p.sawExit ==> s.exitSent && p.got == s.sent && p.status == Some(s.child.code % 256))
    && (p.status.Some? && !p.sawExit ==> s.link.cut)
  }

  ghost predicate Inv(s: State) {
    WireInv(s) && PumpInv(s, false) && PumpInv(s, true) && ExitInv(s) && ProxyInv(s)
  }

  // ---- every step keeps the invariant ------------------------------------------------------------------

  lemma KeepsWireOnPath(s: State, step: Step)
    requires WireInv(s) && Enabled(s, step)
    requires step.BridgeReads? || step.BridgeWrites? || step.PathCut? || step.ProxyFills?
    ensures WireInv(Apply(s, step))
  {
    hide FramesBytes, ParseFrame;
    match step
    case BridgeReads(k) => BridgeInConserves(s.link, k);
    case BridgeWrites(k) => BridgeOutConserves(s.link, k);
    case PathCut => CutConserves(s.link);
    case ProxyFills(k) =>
      ReceiveTakesFront(s.link, k);
      var head, tail := s.link.arrived[..k], s.link.Receive(k).InFlight();
      assert (s.proxy.rbuf + head) + tail + Rest(s.lock) == s.proxy.rbuf + (head + tail) + Rest(s.lock);
  }

  lemma KeepsWireOnWrite(s: State, k: nat)
    requires WireInv(s) && Enabled(s, WriteSome(k))
    ensures WireInv(Apply(s, WriteSome(k)))
  {
    hide FramesBytes, ParseFrame;
    var rest := s.lock.rest;
    SendAppends(s.link, rest[..k]);
    assert rest == rest[..k] + rest[k..];
    assert s.proxy.rbuf + (s.link.InFlight() + rest[..k]) + rest[k..]
        == s.proxy.rbuf + s.link.InFlight() + (rest[..k] + rest[k..]);
  }

  lemma KeepsWireOnAcquire(s: State, who: Who)
    requires WireInv(s) && Enabled(s, Acquire(who))
    ensures WireInv(Apply(s, Acquire(who)))
  {
    hide FramesBytes, FrameBytes, ParseFrame;
    var f := FrameFor(s, who);
    var n := |s.proxy.got|;
    assert Sendable(f);
    FramesSnoc(s.sent[n..], f);
    assert (s.sent + [f])[n..] == s.sent[n..] + [f];
    assert Unread(s) + FrameBytes(f) == s.proxy.rbuf + s.link.InFlight() + FrameBytes(f);
  }

  lemma KeepsWireOnFrame(s: State)
    requires WireInv(s) && Enabled(s, ProxyFrame)
    ensures WireInv(Apply(s, ProxyFrame))
    ensures ParseFrame(s.proxy.rbuf).frame == s.sent[|s.proxy.got|]
  {
    hide FramesBytes, FrameBytes, ParseFrame;
    var fs := s.sent[|s.proxy.got|..];
    var coming := s.link.InFlight() + Rest(s.lock);
    assert Unread(s) == s.proxy.rbuf + coming;
    ParseArrived(fs, s.proxy.rbuf, coming);
    var rest := ParseFrame(s.proxy.rbuf).rest;
    assert rest + coming == rest + s.link.InFlight() + Rest(s.lock);
    assert fs[1..] == s.sent[|s.proxy.got| + 1..];
    assert s.proxy.got + [fs[0]] <= s.sent;
  }

  lemma KeepsWire(s: State, step: Step)
    requires WireInv(s) && Enabled(s, step)
    ensures WireInv(Apply(s, step))
  {
    hide FramesBytes, FrameBytes, ParseFrame;
    match step
    case Acquire(who) => KeepsWireOnAcquire(s, who);
    case WriteSome(k) => KeepsWireOnWrite(s, k);
    case ProxyFrame => KeepsWireOnFrame(s);
    case BridgeReads(_) => KeepsWireOnPath(s, step);
    case BridgeWrites(_) => KeepsWireOnPath(s, step);
    case PathCut => KeepsWireOnPath(s, step);
    case ProxyFills(_) => KeepsWireOnPath(s, step);
    case _ =>
  }

  /** A pump never has more in hand than its 32 KiB buffer, so `WriteChunk` has nothing to cut off. */
  lemma KeepsPumpOnAcquire(s: State, who: Who, stderr: bool)
    requires PumpInv(s, stderr) && Enabled(s, Acquire(who))
    ensures PumpInv(Apply(s, Acquire(who)), stderr)
  {
    hide FrameBytes, FramesBytes, Payload;
    var f := FrameFor(s, who);
    FramesSnoc(s.sent, f);
    if who == PumpName(stderr) {
      assert f == Frame(TagOf(stderr), PumpOf(s, stderr).hand);
    } else {
      assert f.tag != TagOf(stderr);
    }
  }

  lemma KeepsPumpOnRead(s: State, e: bool, k: nat, stderr: bool)
    requires PumpInv(s, stderr) && Enabled(s, PumpReads(e, k))
    ensures PumpInv(Apply(s, PumpReads(e, k)), stderr)
  {
    hide Payload;
    if e == stderr {
      var p, all := PumpOf(s, e), Written(s, e);
      var n := |p.taken|;
      assert p.taken == all[..n];
      assert Payload(s.sent, TagOf(e)) == Payload(s.sent, TagOf(e)) + [];
      assert all[..n + k] == all[..n] + all[n..n + k];
    }
  }

  lemma KeepsPump(s: State, step: Step, stderr: bool)
    requires PumpInv(s, stderr) && Enabled(s, step)
    ensures PumpInv(Apply(s, step), stderr)
  {
    hide FrameBytes, ParseFrame, Payload;
    match step
    case Acquire(who) => KeepsPumpOnAcquire(s, who, stderr);
    case PumpReads(e, k) => KeepsPumpOnRead(s, e, k, stderr);
    case _ =>
  }

  lemma KeepsExit(s: State, step: Step)
    requires ExitInv(s) && PumpInv(s, false) && PumpInv(s, true) && Enabled(s, step)
    ensures ExitInv(Apply(s, step))
  {
    hide FrameBytes, ParseFrame, Payload;
    match step
    case Acquire(who) =>
      var f := FrameFor(s, who);
      assert (s.sent + [f])[..|s.sent|] == s.sent;
    case _ =>
  }

  lemma ExitFrameIsLast(s: State)
    requires WireInv(s) && ExitInv(s)
    requires |s.proxy.got| < |s.sent| && s.sent[|s.proxy.got|].tag == TAG_EXIT
    ensures s.exitSent && s.sent == s.proxy.got + [ExitFrame(s.child.code)]
  {
    var n := |s.proxy.got|;
    assert s.exitSent;
    var before := s.sent[..|s.sent| - 1];
    assert forall i :: 0 <= i < |before| ==> s.sent[i] == before[i];
  }

  lemma NothingUnreadWhenDrained(s: State)
    requires WireInv(s) && !ParseFrame(s.proxy.rbuf).Got? && Unread(s) == s.proxy.rbuf
    ensures s.proxy.got == s.sent
  {
    hide FramesBytes, FrameBytes, ParseFrame;
    var fs := s.sent[|s.proxy.got|..];
    assert Unread(s) == s.proxy.rbuf + [];
    ParseArrived(fs, s.proxy.rbuf, []);
    if fs != [] {
      FirstFrameFits(fs);
    }
  }

  /** A proxy that sees its stream end sees it end early: on a path that was not cut, everything sent is
      readable, and the exit frame is part of it. */
  lemma EofMeansCut(s: State)
    requires WireInv(s) && ExitInv(s) && ProxyInv(s) && Enabled(s, ProxyEof)
    ensures s.link.cut
  {
    hide FramesBytes, FrameBytes, ParseFrame;
    if !s.link.cut {
      assert Unread(s) == s.proxy.rbuf + [] + [];
      NothingUnreadWhenDrained(s);
    }
  }

  /** And then it reports success exactly if the part of a frame it has is nothing or no more than a header, and 127
      otherwise. */
  lemma EofStatusIff(s: State)
    requires WireInv(s) && Enabled(s, ProxyEof)
    ensures Apply(s, ProxyEof).proxy
         == s.proxy.(status := Some(if |s.proxy.rbuf| == 0 || |s.proxy.rbuf| == 5 then 0 else 127))
  {
    hide FramesBytes, FrameBytes, ParseFrame;
    var fs, b := s.sent[|s.proxy.got|..], s.proxy.rbuf;
    var coming := s.link.InFlight() + Rest(s.lock);
    assert Unread(s) == b + coming;
    ParseArrived(fs, b, coming);
    NothingReadsAsEnd();
    if fs != [] {
      var head := FrameBytes(fs[0]);
      AllAreFrames(fs);
      assert b + coming == head + FramesBytes(fs[1..]);
      assert b == (b + coming)[..|b|] == head[..|b|];
      PartialEnd(fs[0], b);
    } else {
      EmptyFrames();
    }
  }

  lemma NothingReadsAsEnd()
    ensures ParseFrame([]) == End
  {
  }

  lemma AllAreFrames(fs: seq<Frame>)
    requires fs != []
    ensures FramesBytes(fs) == FrameBytes(fs[0]) + FramesBytes(fs[1..])
  {
  }

  lemma KeepsProxyOnFrame(s: State)
    requires WireInv(s) && ExitInv(s) && ProxyInv(s) && Enabled(s, ProxyFrame)
    ensures ProxyInv(Apply(s, ProxyFrame))
  {
    hide FramesBytes, FrameBytes, ParseFrame, Payload, StatusOf;
    KeepsWireOnFrame(s);
    var f := s.sent[|s.proxy.got|];
    FramesSnoc(s.proxy.got, f);
    assert s.proxy.stdout + [] == s.proxy.stdout && s.proxy.stderr + [] == s.proxy.stderr;
    assert Payload(s.proxy.got, TAG_STDOUT) + [] == Payload(s.proxy.got, TAG_STDOUT);
    assert Payload(s.proxy.got, TAG_STDERR) + [] == Payload(s.proxy.got, TAG_STDERR);
    if f.tag == TAG_EXIT {
      ExitFrameIsLast(s);
      ExitStatusIsModulo256(s.child.code);
    }
  }

  lemma KeepsProxyOnPut(s: State, k: nat)
    requires ProxyInv(s) && Enabled(s, ProxyPuts(k))
    ensures ProxyInv(Apply(s, ProxyPuts(k)))
  {
    hide Payload, ParseFrame;
    var p := s.proxy;
    assert p.putting == p.putting[..k] + p.putting[k..];
    assert p.stdout + (p.putting[..k] + p.putting[k..]) == p.stdout + p.putting[..k] + p.putting[k..];
    assert p.stderr + (p.putting[..k] + p.putting[k..]) == p.stderr + p.putting[..k] + p.putting[k..];
  }

  lemma KeepsProxy(s: State, step: Step)
    requires WireInv(s) && PumpInv(s, false) && PumpInv(s, true) && ExitInv(s) && ProxyInv(s) && Enabled(s, step)
    ensures ProxyInv(Apply(s, step))
  {
    hide FramesBytes, FrameBytes, ParseFrame, Payload;
    match step
    case ProxyFrame => KeepsProxyOnFrame(s);
    case ProxyPuts(k) => KeepsProxyOnPut(s, k);
    case ProxyEof => EofMeansCut(s);
    case _ =>
  }

  lemma StepKeepsInv(s: State, step: Step)
    requires Inv(s) && Enabled(s, step)
    ensures Inv(Apply(s, step))
  {
    hide WireInv, PumpInv, ExitInv, ProxyInv, Apply, Enabled;
    KeepsWire(s, step);
    KeepsPump(s, step, false);
    KeepsPump(s, step, true);
    KeepsExit(s, step);
    KeepsProxy(s, step);
  }

  lemma {:induction false} RunKeepsInv(states: seq<State>, steps: seq<Step>, k: nat)
    requires IsRun(states, steps) && k < |states|
    ensures Inv(states[k])
  {
    hide Apply, Enabled;
    if k == 0 {
      StartHasInv(states[0]);
    } else {
      RunKeepsInv(states, steps, k - 1);
      assert states[k] == Apply(states[k - 1], steps[k - 1]);
      StepKeepsInv(states[k - 1], steps[k - 1]);
    }
  }

  lemma StartHasInv(s: State)
    requires s == Start(s.link.window, s.outRoom, s.errRoom) && s.link.window > 0
    ensures Inv(s)
  {
    assert s.sent[|s.proxy.got|..] == [];
  }

  // ---- what a run guarantees ---------------------------------------------------------------------------

  /** In every reachable state the proxy has put out a prefix of what the child has written, on each stream; and
      once the exit frame has been read, it was the last frame, nothing of either stream is missing, and the
      proxy's status is the child's exit code modulo 256. */
  lemma OutputIsFaithful(states: seq<State>, steps: seq<Step>, k: nat)
    requires IsRun(states, steps) && k < |states|
    ensures states[k].proxy.stdout <= states[k].child.out
    ensures states[k].proxy.stderr <= states[k].child.err
    ensures states[k].proxy.sawExit ==>
              && states[k].proxy.stdout == states[k].child.out
              && states[k].proxy.stderr == states[k].child.err
              && states[k].proxy.got == states[k].sent
              && states[k].child.exited && !states[k].child.outOpen && !states[k].child.errOpen
              && states[k].proxy.status == Some(states[k].child.code % 256)
    ensures states[k].proxy.status.Some? && !states[k].link.cut ==> states[k].proxy.sawExit
  {
    hide Apply, Enabled, Inv;
    RunKeepsInv(states, steps, k);
    OutputSoFar(states[k]);
  }

  lemma OutputSoFar(s: State)
    requires Inv(s)
    ensures s.proxy.stdout + Putting(s.proxy, false) <= s.child.out && s.proxy.stdout <= s.child.out
    ensures s.proxy.stderr + Putting(s.proxy, true) <= s.child.err && s.proxy.stderr <= s.child.err
    ensures s.proxy.sawExit ==>
              && s.proxy.stdout == s.child.out && s.proxy.stderr == s.child.err
              && s.proxy.got == s.sent && s.child.exited && !s.child.outOpen && !s.child.errOpen
              && s.proxy.status == Some(s.child.code % 256)
    ensures s.proxy.status.Some? && !s.link.cut ==> s.proxy.sawExit
  {
    hide FramesBytes, FrameBytes, Payload;
    var n := |s.proxy.got|;
    assert s.sent[..n] == s.proxy.got;
    PayloadOfPrefix(s.sent, n, TAG_STDOUT);
    PayloadOfPrefix(s.sent, n, TAG_STDERR);
    var o, e := s.proxy.stdout + Putting(s.proxy, false), s.proxy.stderr + Putting(s.proxy, true);
    PrefixChain(o, Payload(s.sent, TAG_STDOUT), s.out.hand, s.out.taken, s.child.out);
    PrefixChain(e, Payload(s.sent, TAG_STDERR), s.err.hand, s.err.taken, s.child.err);
    ShorterPrefix(s.proxy.stdout, Putting(s.proxy, false), s.child.out);
    ShorterPrefix(s.proxy.stderr, Putting(s.proxy, true), s.child.err);
  }

  lemma ShorterPrefix(a: bytes, b: bytes, all: bytes)
    requires a + b <= all
    ensures a <= all && (b == [] ==> a + b == a)
  {
    assert a == (a + b)[..|a|] == all[..|a|];
  }

  lemma PrefixChain(a: bytes, b: bytes, hand: bytes, taken: bytes, all: bytes)
    requires a <= b && b + hand == taken && taken <= all
    ensures a <= all
    ensures a == b && hand == [] && taken == all ==> a == all
  {
    assert a == b[..|a|] == taken[..|a|] == all[..|a|];
  }

  // ---- no hang -----------------------------------------------------------------------------------------

  /** The steps that neither the child nor a failing network takes, nor whoever reads the proxy's own output. */
  predicate Own(step: Step) {
    !step.ChildWrites? && !step.ChildCloses? && !step.ChildExits? && !step.PathCut? && !step.SinkDrains?
  }

  function PumpWork(s: State, stderr: bool): int {
    var p := PumpOf(s, stderr);
    33 * (|Written(s, stderr)| - |p.taken|) + 32 * |p.hand| + if p.finished then 0 else 1
  }

  /** Work left: every byte weighs more the further it is from the proxy. */
  function Work(s: State): int {
    PumpWork(s, false) + PumpWork(s, true)
    + (if s.exitSent then 0 else 50)
    + PathWork(s.link, s.lock) + |s.proxy.rbuf| + |s.proxy.putting|
    + (if s.proxy.status.None? then 1 else 0)
  }

  lemma ReadReducesPumpWork(s: State, e: bool, k: nat)
    requires Enabled(s, PumpReads(e, k))
    ensures PumpWork(Apply(s, PumpReads(e, k)), e) == PumpWork(s, e) - k
  {
    var n, all := |PumpOf(s, e).taken|, Written(s, e);
    assert |all[..n + k]| == n + k && |all[n..n + k]| == k;
  }

  lemma StepReducesPumpWork(s: State, step: Step)
    requires Enabled(s, step) && (step.PumpReads? || step.PumpEnds?)
    ensures PumpWork(Apply(s, step), !step.stderr) == PumpWork(s, !step.stderr)
    ensures PumpWork(Apply(s, step), step.stderr) < PumpWork(s, step.stderr)
  {
    match step
    case PumpReads(e, k) => ReadReducesPumpWork(s, e, k);
    case PumpEnds(_) =>
  }

  lemma PumpStepsReduceWork(s: State, step: Step)
    requires PumpInv(s, false) && PumpInv(s, true) && Enabled(s, step) && (step.PumpReads? || step.PumpEnds?)
    ensures 0 <= Work(Apply(s, step)) < Work(s)
  {
    hide Payload, PathWork, PumpWork;
    var t := Apply(s, step);
    StepReducesPumpWork(s, step);
    NonNegativePumpWork(t, false);
    NonNegativePumpWork(t, true);
  }

  lemma NonNegativePumpWork(s: State, stderr: bool)
    requires |PumpOf(s, stderr).taken| <= |Written(s, stderr)|
    ensures 0 <= PumpWork(s, stderr)
  {
  }

  function PathWork(l: Link, lock: Lock): nat {
    (if lock.Held? then 1 + 5 * |lock.rest| else 0) + 4 * |l.wire| + 3 * |l.held| + 2 * |l.arrived|
  }

  lemma PathStepsReduceWork(s: State, step: Step)
    requires PumpInv(s, false) && PumpInv(s, true) && Enabled(s, step)
    requires step.WriteSome? || step.Release? || step.BridgeReads? || step.BridgeWrites? || step.ProxyFills?
    ensures 0 <= Work(Apply(s, step)) < Work(s)
  {
    hide Payload, PumpWork;
    var t := Apply(s, step);
    assert PumpWork(t, false) == PumpWork(s, false) && PumpWork(t, true) == PumpWork(s, true) by {
      SamePumpWork(s, t);
    }
    NonNegativePumpWork(s, false);
    NonNegativePumpWork(s, true);
    PathStepsReducePathWork(s, step);
  }

  lemma SamePumpWork(s: State, t: State)
    requires s.child == t.child && s.out == t.out && s.err == t.err
    ensures forall e :: PumpWork(t, e) == PumpWork(s, e)
  {
  }

  lemma PathStepsReducePathWork(s: State, step: Step)
    requires Enabled(s, step)
    requires step.WriteSome? || step.Release? || step.BridgeReads? || step.BridgeWrites? || step.ProxyFills?
    ensures var t := Apply(s, step);
            PathWork(t.link, t.lock) + |t.proxy.rbuf| < PathWork(s.link, s.lock) + |s.proxy.rbuf|
  {
    match step
    case WriteSome(k) => assert |s.lock.rest[k..]| == |s.lock.rest| - k && |s.lock.rest[..k]| == k;
    case BridgeReads(k) => assert |s.link.wire[k..]| == |s.link.wire| - k && |s.link.wire[..k]| == k;
    case BridgeWrites(k) => assert |s.link.held[k..]| == |s.link.held| - k && |s.link.held[..k]| == k;
    case ProxyFills(k) => assert |s.link.arrived[k..]| == |s.link.arrived| - k && |s.link.arrived[..k]| == k;
    case _ =>
  }

  lemma ProxyStepsReduceWork(s: State, step: Step)
    requires PumpInv(s, false) && PumpInv(s, true) && Enabled(s, step)
    requires step.ProxyFrame? || step.ProxyEof? || step.ProxyPuts?
    ensures 0 <= Work(Apply(s, step)) < Work(s)
  {
    hide Payload, ParseFrame, StatusOf, PumpWork;
    var t := Apply(s, step);
    SamePumpWork(s, t);
    NonNegativePumpWork(s, false);
    NonNegativePumpWork(s, true);
    if step.ProxyFrame? {
      ParseShrinks(s.proxy.rbuf);
    } else if step.ProxyPuts? {
      assert |s.proxy.putting[step.k..]| == |s.proxy.putting| - step.k;
    }
  }

  /** Every step of the executor, the bridge or the proxy leaves strictly less work. */
  lemma OwnStepsReduceWork(s: State, step: Step)
    requires Inv(s) && Enabled(s, step) && Own(step)
    ensures 0 <= Work(Apply(s, step)) < Work(s)
  {
    hide WireInv, PumpInv, ExitInv, ProxyInv, Work, Apply, Enabled;
    match step
    case Acquire(who) => AcquireReducesWork(s, who);
    case PumpReads(_, _) => PumpStepsReduceWork(s, step);
    case PumpEnds(_) => PumpStepsReduceWork(s, step);
    case ProxyFrame => ProxyStepsReduceWork(s, step);
    case ProxyEof => ProxyStepsReduceWork(s, step);
    case ProxyPuts(_) => ProxyStepsReduceWork(s, step);
    case _ => PathStepsReduceWork(s, step);
  }

  lemma AcquireReducesWork(s: State, who: Who)
    requires PumpInv(s, false) && PumpInv(s, true) && Enabled(s, Acquire(who))
    ensures 0 <= Work(Apply(s, Acquire(who))) < Work(s)
  {
    hide BE32, U32Of, Payload;
  }

  /** The proxy is inside a write to its own stdout or stderr, and that takes nothing more. */
  predicate Parked(s: State) { s.proxy.putting != [] && Room(s, s.proxy.puttingErr) == 0 }

  /** Once the child has gone and its pipes are closed, a proxy without a status is left waiting only by whoever reads
      its own output: unless it is parked in a write there, some step of the executor, the bridge or the proxy can be
      taken. With the falling work this means every schedule that keeps taking such steps, with an output that keeps
      being read, ends the proxy. */
  lemma NeverStuck(s: State)
    requires Inv(s)
    requires s.child.exited && !s.child.outOpen && !s.child.errOpen
    requires s.proxy.status.None? && !Parked(s)
    ensures exists step :: Enabled(s, step) && Own(step)
  {
    hide FramesBytes, ProxyInv, ParseFrame, Payload;
    if s.link.arrived != [] || s.link.held != [] || s.link.wire != [] || s.proxy.putting != [] {
      PathMoves(s);
    } else if s.lock.Held? {
      assert Enabled(s, if s.lock.rest == [] then Release else WriteSome(1));
    } else if !s.out.finished {
      assert Enabled(s, PumpStep(s, false));
    } else if !s.err.finished {
      assert Enabled(s, PumpStep(s, true));
    } else if !s.exitSent {
      assert Enabled(s, Acquire(ExitWriter));
    } else {
      assert Enabled(s, if ParseFrame(s.proxy.rbuf).Got? then ProxyFrame else ProxyEof);
    }
  }

  ghost predicate Quiet(s: State) { forall step :: Enabled(s, step) ==> !Own(step) }

  /** Once the child has gone and its pipes are closed, and as long as the path lasts: when no step of the executor, the
      bridge or the proxy is left, the proxy has ended exactly if what it has not put out yet of either stream fits what
      that output of its own still takes. */
  lemma QuietMeansEndedIff(s: State)
    requires Inv(s) && Quiet(s) && !s.link.cut
    requires s.child.exited && !s.child.outOpen && !s.child.errOpen
    ensures s.proxy.status.Some?
       <==> && |s.child.out| <= |s.proxy.stdout| + s.outRoom
            && |s.child.err| <= |s.proxy.stderr| + s.errRoom
  {
    hide Inv, Enabled, Own;
    OutputSoFar(s);
    if s.proxy.status.None? && !Parked(s) {
      NeverStuck(s);
    }
  }

  /** Whatever is on its way can go on, the part nearest the proxy first. */
  lemma PathMoves(s: State)
    requires s.link.Valid() && s.proxy.status.None? && !Parked(s)
    requires s.link.arrived != [] || s.link.held != [] || s.link.wire != [] || s.proxy.putting != []
    ensures exists step :: Enabled(s, step) && Own(step)
  {
    hide ParseFrame;
    if s.proxy.putting != [] {
      assert Enabled(s, ProxyPuts(1));
    } else if s.link.arrived != [] {
      assert Enabled(s, ProxyFills(1));
    } else if s.link.held != [] {
      assert Enabled(s, BridgeWrites(1));
    } else {
      assert Enabled(s, BridgeReads(1));
    }
  }

  function PumpStep(s: State, stderr: bool): Step {
    var p := PumpOf(s, stderr);
    if p.hand != [] then Acquire(PumpName(stderr))
    else if |p.taken| < |Written(s, stderr)| then PumpReads(stderr, 1)
    else PumpEnds(stderr)
  }

  // ---- back-pressure -----------------------------------------------------------------------------------

  predicate LinkBounded(l: Link) { |l.wire| <= l.window && |l.held| <= l.window && |l.arrived| <= l.window }

  predicate PumpBounded(s: State, stderr: bool) {
    && |PumpOf(s, stderr).hand| <= PUMP_BUFFER
    && (s.lock.Held? && s.lock.who == PumpName(stderr) ==> PumpOf(s, stderr).hand == [])
  }

  /** No buffer holds more than it has room for, and a pump reads nothing while a frame of its own is being written. */
  predicate Bounded(s: State) {
    LinkBounded(s.link) && PumpBounded(s, false) && PumpBounded(s, true) && |Rest(s.lock)| <= 5 + PUMP_BUFFER
  }

  lemma StepKeepsBounds(s: State, step: Step)
    requires Bounded(s) && s.link.Valid() && Enabled(s, step)
    ensures Bounded(Apply(s, step))
  {
    hide Enabled, Apply, LinkBounded, PumpBounded, Rest;
    StepKeepsLinkBounds(s, step);
    StepKeepsPumpBounds(s, step, false);
    StepKeepsPumpBounds(s, step, true);
    StepKeepsRestBounds(s, step);
  }

  lemma StepKeepsLinkBounds(s: State, step: Step)
    requires LinkBounded(s.link) && s.link.Valid() && Enabled(s, step)
    ensures LinkBounded(Apply(s, step).link)
  {
    hide ParseFrame, FrameFor, FrameBytes;
  }

  lemma StepKeepsPumpBounds(s: State, step: Step, stderr: bool)
    requires PumpBounded(s, stderr) && Enabled(s, step)
    ensures PumpBounded(Apply(s, step), stderr)
  {
    hide ParseFrame, FrameFor, FrameBytes;
  }

  lemma StepKeepsRestBounds(s: State, step: Step)
    requires Bounded(s) && Enabled(s, step)
    ensures |Rest(Apply(s, step).lock)| <= 5 + PUMP_BUFFER
  {
    hide ParseFrame, FrameFor, FrameBytes, LinkBounded;
    if step.Acquire? {
      FrameIsBounded(s, step.who);
    }
  }

  lemma FrameIsBounded(s: State, who: Who)
    requires PumpBounded(s, false) && PumpBounded(s, true)
    ensures |FrameBytes(FrameFor(s, who))| <= 5 + PUMP_BUFFER
  {
    hide BE32, U32Of;
  }

  lemma {:induction false} BuffersAreBounded(states: seq<State>, steps: seq<Step>, k: nat)
    requires IsRun(states, steps) && k < |states|
    ensures Bounded(states[k])
  {
    hide Enabled, Apply, Bounded, Inv;
    if k == 0 {
      StartIsBounded(states[0]);
    } else {
      BuffersAreBounded(states, steps, k - 1);
      RunKeepsInv(states, steps, k - 1);
      LinkIsValid(states[k - 1]);
      StepKeepsBounds(states[k - 1], steps[k - 1]);
      assert states[k] == Apply(states[k - 1], steps[k - 1]);
    }
  }

  lemma StartIsBounded(s: State)
    requires s == Start(s.link.window, s.outRoom, s.errRoom)
    ensures Bounded(s)
  {
  }

  lemma LinkIsValid(s: State)
    requires Inv(s)
    ensures s.link.Valid()
  {
  }

  /** A proxy parked in a write to its own stdout or stderr reads nothing more, until that output is drained. */
  lemma {:induction false} ParkedReadsNothing(states: seq<State>, steps: seq<Step>, i: nat, j: nat)
    requires IsRun(states, steps) && i <= j < |states| && Parked(states[i])
    requires forall k :: i <= k < j ==> !steps[k].SinkDrains?
    ensures Parked(states[j]) && states[j].proxy == states[i].proxy
    decreases j - i
  {
    hide Apply, Enabled, Parked;
    if i < j {
      ParkedReadsNothing(states, steps, i, j - 1);
      RunKeepsInv(states, steps, j - 1);
      ParkedStep(states[j - 1], steps[j - 1]);
      assert states[j] == Apply(states[j - 1], steps[j - 1]);
    }
  }

  lemma ParkedStep(s: State, step: Step)
    requires Inv(s) && Enabled(s, step) && Parked(s) && !step.SinkDrains?
    ensures Parked(Apply(s, step)) && Apply(s, step).proxy == s.proxy
  {
    hide FrameBytes, ParseFrame, Payload, WireInv, PumpInv, ExitInv;
  }

  // ---- everything can arrive ---------------------------------------------------------------------------

  ghost predicate EndsIn(states: seq<State>, steps: seq<Step>, s: State) {
    IsRun(states, steps) && states[|steps|] == s
  }

  /** Some run comes to `s`. */
  ghost predicate Reachable(s: State) { exists states, steps :: EndsIn(states, steps, s) }

  lemma StartIsReachable(window: nat, outRoom: nat, errRoom: nat)
    requires window > 0
    ensures Reachable(Start(window, outRoom, errRoom))
  {
    assert EndsIn([Start(window, outRoom, errRoom)], [], Start(window, outRoom, errRoom));
  }

  lemma Go(s: State, step: Step, t: State)
    requires Reachable(s) && Enabled(s, step) && Apply(s, step) == t
    ensures Reachable(t)
  {
    hide Enabled, Apply;
    var states, steps :| EndsIn(states, steps, s);
    assert EndsIn(states + [t], steps + [step], t);
  }

  lemma ReachableKeepsInv(s: State)
    requires Reachable(s)
    ensures Inv(s)
  {
    hide Inv;
    var states, steps :| EndsIn(states, steps, s);
    RunKeepsInv(states, steps, |steps|);
  }

  /** Nothing but the system itself has done anything between `s` and `t`. */
  predicate OnItsOwn(s: State, t: State) {
    && t.child == s.child && t.link.cut == s.link.cut
    && |t.proxy.stdout| + t.outRoom == |s.proxy.stdout| + s.outRoom
    && |t.proxy.stderr| + t.errRoom == |s.proxy.stderr| + s.errRoom
  }

  lemma OwnStepIsOnItsOwn(s: State, step: Step)
    requires Enabled(s, step) && Own(step)
    ensures OnItsOwn(s, Apply(s, step))
  {
    hide FrameBytes, ParseFrame, StatusOf;
  }

  /** Left to itself, the system comes to rest. */
  lemma {:induction false} ComesToRest(s: State) returns (t: State)
    requires Reachable(s)
    ensures Reachable(t) && Quiet(t) && OnItsOwn(s, t)
    decreases Work(s)
  {
    hide Reachable, Inv, Enabled, Apply, Own, Work;
    ReachableKeepsInv(s);
    t := s;
    if !Quiet(s) {
      var step :| Enabled(s, step) && Own(step);
      OwnStepsReduceWork(s, step);
      OwnStepIsOnItsOwn(s, step);
      Go(s, step, Apply(s, step));
      t := ComesToRest(Apply(s, step));
    }
  }

  /** Whatever a child writes to the two streams and whatever code it leaves, over a path of any width: some run ends
      with the proxy having put out exactly that, and with that code modulo 256. */
  lemma OutputCanArrive(o: bytes, e: bytes, code: int, window: nat) returns (s: State)
    requires window > 0
    ensures Reachable(s) && s.child == Child(o, e, false, false, true, code)
    ensures s.proxy.stdout == o && s.proxy.stderr == e && s.proxy.status == Some(code % 256) && s.proxy.sawExit
  {
    hide Reachable, Inv, Quiet;
    var start := Start(window, 0, 0);
    StartIsReachable(window, 0, 0);
    var half := start.(outRoom := 0 + |o|);
    Go(start, SinkDrains(false, |o|), half);
    var s0 := half.(errRoom := 0 + |e|);
    Go(half, SinkDrains(true, |e|), s0);
    var s1 := s0.(child := Child([] + o, [], true, true, false, 0));
    Go(s0, ChildWrites(false, o), s1);
    var s2 := s1.(child := Child([] + o, [] + e, true, true, false, 0));
    Go(s1, ChildWrites(true, e), s2);
    var s3 := s2.(child := s2.child.(outOpen := false));
    Go(s2, ChildCloses(false), s3);
    var s4 := s3.(child := s3.child.(errOpen := false));
    Go(s3, ChildCloses(true), s4);
    var s5 := s4.(child := s4.child.(exited := true, code := code));
    Go(s4, ChildExits(code), s5);
    s := ComesToRest(s5);
    ReachableKeepsInv(s);
    QuietMeansEndedIff(s);
    OutputSoFar(s);
  }
}
