/** Tagged frames between the spawn proxy and the executor (internal/execproto), and the two loops that use
    them sequentially: the executor's pump and the proxy's demultiplexer. */
module ExecProto {
  import opened Bytes
  import opened Streams

  const TAG_STDOUT: byte := 79 // 'O'
  const TAG_STDERR: byte := 69 // 'E'
  const TAG_EXIT: byte := 88   // 'X'
  const TAG_SIGNAL: byte := 83 // 'S'
  const TAG_STDIN: byte := 73  // 'I'

  const MAX_CHUNK: nat := 0x10_0000
  const PUMP_BUFFER: nat := 32 * 1024

  datatype Frame = Frame(tag: byte, data: bytes)

  /** `WriteChunk` silently cuts what it is given to `MAX_CHUNK` bytes. */
  function Chunk(tag: byte, data: bytes): Frame {
    Frame(tag, if |data| > MAX_CHUNK then data[..MAX_CHUNK] else data)
  }

  function ExitFrame(code: int): Frame { Frame(TAG_EXIT, BE32(U32Of(code))) }

  function SignalFrame(signum: int32): Frame { Frame(TAG_SIGNAL, BE32(U32Of(signum))) }

  predicate Sendable(f: Frame) { |f.data| <= MAX_CHUNK }

  function FrameBytes(f: Frame): bytes {
    [f.tag] + BE32(U32Of(|f.data|)) + f.data
  }

  predicate AllSendable(fs: seq<Frame>) { forall i :: 0 <= i < |fs| ==> Sendable(fs[i]) }

  function FramesBytes(fs: seq<Frame>): bytes {
    if fs == [] then [] else FrameBytes(fs[0]) + FramesBytes(fs[1..])
  }

  /** The bytes a receiver collects from the frames that carry `tag`. */
  function Payload(fs: seq<Frame>, tag: byte): bytes {
    if fs == [] then [] else (if fs[0].tag == tag then fs[0].data else []) + Payload(fs[1..], tag)
  }

  datatype FrameRead =
    | Got(frame: Frame, rest: bytes)
    | End        // io.EOF
    | Short      // io.ErrUnexpectedEOF
    | TooLarge

  /** `ReadFrame` on a stream whose peer sent `b` and closed. A stream that ends exactly between the header and
      a non-empty payload reads as a clean end of file. */
  function ParseFrame(b: bytes): FrameRead {
    if |b| < 5 then (if b == [] then End else Short)
    else
      var n := FromBE32(b[1..5]);
      if n > MAX_CHUNK then TooLarge
      else if |b| < 5 + n then (if |b| == 5 then End else Short)
      else Got(Frame(b[0], b[5..5 + n]), b[5 + n..])
  }

  function ExitCode(f: Frame): int32 {
    if f.tag != TAG_EXIT || |f.data| < 4 then -1 else I32Of(FromBE32(f.data))
  }

  function Signum(f: Frame): int32 {
    if f.tag != TAG_SIGNAL || |f.data| < 4 then 0 else I32Of(FromBE32(f.data))
  }

  /** The signals of a list of frames, in order. */
  function SignalsOf(fs: seq<Frame>): seq<int32> {
    if fs == [] then [] else (if fs[0].tag == TAG_SIGNAL then [Signum(fs[0])] else []) + SignalsOf(fs[1..])
  }

  lemma {:induction false} SignalsConcat(a: seq<Frame>, b: seq<Frame>)
    ensures SignalsOf(a + b) == SignalsOf(a) + SignalsOf(b)
  {
    hide Signum;
    if a == [] {
      assert a + b == b;
    } else {
      SignalsConcat(a[1..], b);
      assert (a + b)[0] == a[0] && (a + b)[1..] == a[1..] + b;
      var h := if a[0].tag == TAG_SIGNAL then [Signum(a[0])] else [];
      assert h + (SignalsOf(a[1..]) + SignalsOf(b)) == (h + SignalsOf(a[1..])) + SignalsOf(b);
    }
  }

  lemma EmptyFrames()
    ensures FramesBytes([]) == []
  {
  }

  lemma FirstFrameFits(fs: seq<Frame>)
    requires fs != []
    ensures |FrameBytes(fs[0])| <= |FramesBytes(fs)|
  {
  }

  lemma FramesConcat(a: seq<Frame>, b: seq<Frame>)
    ensures FramesBytes(a + b) == FramesBytes(a) + FramesBytes(b)
    ensures forall tag :: Payload(a + b, tag) == Payload(a, tag) + Payload(b, tag)
  {
    hide FrameBytes;
    if a == [] {
      assert a + b == b;
    } else {
      FramesConcat(a[1..], b);
      assert (a + b)[1..] == a[1..] + b;
    }
  }

  lemma FramesSnoc(a: seq<Frame>, f: Frame)
    ensures FramesBytes(a + [f]) == FramesBytes(a) + FrameBytes(f)
    ensures forall tag :: Payload(a + [f], tag) == Payload(a, tag) + if f.tag == tag then f.data else []
  {
    FramesConcat(a, [f]);
    assert [f][1..] == [];
    assert FramesBytes([f]) == FrameBytes(f) + [];
    forall tag
      ensures Payload([f], tag) == if f.tag == tag then f.data else []
    {
      assert Payload([f], tag) == (if f.tag == tag then f.data else []) + [];
    }
  }

  /** A frame's bytes, whatever follows them, parse to that frame and leave what follows. */
  lemma ParseOwnFrame(f: Frame, rest: bytes)
    requires Sendable(f)
    ensures ParseFrame(FrameBytes(f) + rest) == Got(f, rest)
  {
    var b := FrameBytes(f) + rest;
    assert b[1..5] == BE32(|f.data|) + [];
    BE32RoundTrip(|f.data|, []);
    assert b[5..5 + |f.data|] == f.data;
    assert b[5 + |f.data|..] == rest;
  }

  /** A strict prefix of a frame is neither a frame nor oversized. */
  lemma ParsePartial(f: Frame, p: bytes)
    requires Sendable(f) && p < FrameBytes(f)
    ensures !ParseFrame(p).Got? && !ParseFrame(p).TooLarge?
  {
    hide BE32, FromBE32;
    var b := FrameBytes(f);
    if |p| >= 5 {
      assert p[1..5] == b[1..5] == BE32(|f.data|) + [];
      BE32RoundTrip(|f.data|, []);
    }
  }

  /** A frame read off some bytes leaves fewer of them, even with its data counted. */
  lemma ParseShrinks(b: bytes)
    requires ParseFrame(b).Got?
    ensures |ParseFrame(b).rest| + |ParseFrame(b).frame.data| < |b|
  {
    hide FromBE32;
  }

  /** If what has arrived, followed by what has not, is a list of frames, then a complete parse of what has
      arrived is the first frame of the list, and what is left over stands for the other frames. An arrived
      part that is no complete frame is never mistaken for one, and never reads as oversized. */
  lemma ParseArrived(fs: seq<Frame>, arrived: bytes, coming: bytes)
    requires AllSendable(fs)
    requires FramesBytes(fs) == arrived + coming
    ensures !ParseFrame(arrived).TooLarge?
    ensures ParseFrame(arrived).Got? <==> (fs != [] && |FrameBytes(fs[0])| <= |arrived|)
    ensures ParseFrame(arrived).Got? ==>
              && ParseFrame(arrived).frame == fs[0]
              && FramesBytes(fs[1..]) == ParseFrame(arrived).rest + coming
  {
    hide FrameBytes;
    if fs == [] {
      assert ParseFrame([]).End?;
      assert arrived == [];
    } else {
      var head, tail := FrameBytes(fs[0]), FramesBytes(fs[1..]);
      assert arrived + coming == head + tail;
      if |head| <= |arrived| {
        var more := arrived[|head|..];
        assert arrived[..|head|] == (arrived + coming)[..|head|] == head;
        assert arrived == head + more;
        assert more + coming == (arrived + coming)[|head|..] == tail;
        ParseOwnFrame(fs[0], more);
      } else {
        assert arrived == (arrived + coming)[..|arrived|] == head[..|arrived|];
        ParsePartial(fs[0], arrived);
      }
    }
  }

  lemma PayloadOfPrefix(fs: seq<Frame>, k: nat, tag: byte)
    requires k <= |fs|
    ensures Payload(fs[..k], tag) <= Payload(fs, tag)
  {
    FramesConcat(fs[..k], fs[k..]);
    assert fs[..k] + fs[k..] == fs;
  }

  method WriteChunk(w: Writer, tag: byte, data: bytes)
    modifies w
    ensures w.out == old(w.out) + FrameBytes(Chunk(tag, data))
  {
    hide BE32, U32Of;
    var d := data;
    if |d| > MAX_CHUNK {
      d := d[..MAX_CHUNK];
    }
    w.Write([tag] + BE32(U32Of(|d|)));
    w.Write(d);
    assert FrameBytes(Chunk(tag, data)) == [tag] + BE32(U32Of(|d|)) + d;
  }

  method WriteExit(w: Writer, code: int32)
    modifies w
    ensures w.out == old(w.out) + FrameBytes(ExitFrame(code))
  {
    w.Write([TAG_EXIT] + BE32(4) + BE32(U32Of(code)));
  }

  method WriteSignal(w: Writer, signum: int32)
    modifies w
    ensures w.out == old(w.out) + FrameBytes(SignalFrame(signum))
  {
    w.Write([TAG_SIGNAL] + BE32(4) + BE32(U32Of(signum)));
  }

  method ReadFrame(r: Reader) returns (f: FrameRead)
    modifies r
    ensures f == ParseFrame(old(r.rest))
    ensures f.Got? ==> r.rest == f.rest && |r.rest| < |old(r.rest)|
  {
    hide FromBE32;
    ghost var b := r.rest;
    var hdr := r.ReadFull(5);
    match hdr
    case EOF => return End;
    case UnexpectedEOF => return Short;
    case Full(h) =>
      assert h == b[..5];
      assert h[1..5] == b[1..5];
      var n := FromBE32(h[1..5]);
      if n > MAX_CHUNK {
        return TooLarge;
      }
      var data := r.ReadFull(n);
      match data
      case EOF => return End;
      case UnexpectedEOF => return Short;
      case Full(d) =>
        assert d == b[5..][..n] == b[5..5 + n];
        return Got(Frame(h[0], d), r.rest);
  }

  /** The pump of one output pipe: however the pipe cuts the child's output into reads, the frames written carry
      exactly that output, all under the pump's tag and none of them empty or oversized. */
  method Pump(pipe: Reader, tag: byte, w: Writer) returns (ghost frames: seq<Frame>)
    modifies pipe, w
    ensures AllSendable(frames)
    ensures w.out == old(w.out) + FramesBytes(frames)
    ensures Payload(frames, tag) == old(pipe.rest)
    ensures forall i :: 0 <= i < |frames| ==> frames[i].tag == tag && frames[i].data != []
  {
    hide FrameBytes, FramesBytes;
    assert FramesBytes([]) == [] by { EmptyFrames(); }
    frames := [];
    ghost var sent: bytes := [];
    while true
      invariant AllSendable(frames)
      invariant w.out == old(w.out) + FramesBytes(frames)
      invariant Payload(frames, tag) == sent
      invariant sent + pipe.rest == old(pipe.rest)
      invariant forall i :: 0 <= i < |frames| ==> frames[i].tag == tag && frames[i].data != []
      decreases |pipe.rest|
    {
      var data, eof := pipe.Read(PUMP_BUFFER);
      if |data| > 0 {
        WriteChunk(w, tag, data);
        FramesSnoc(frames, Frame(tag, data));
        frames, sent := frames + [Frame(tag, data)], sent + data;
      }
      if eof {
        return;
      }
    }
  }

  /** Where the proxy's stdout, stderr and exit status stand when its read loop returns. */
  datatype ProxyResult = ProxyResult(stdout: bytes, stderr: bytes, status: int)

  /** `int(f.ExitCode()) & 0xff`: the low byte of the two's complement value. */
  function StatusOf(f: Frame): int { ExitCode(f) % 256 }

  function Demux(b: bytes): ProxyResult
    decreases |b|
  {
    match ParseFrame(b)
    case End => ProxyResult([], [], 0)
    case Short => ProxyResult([], [], 127)
    case TooLarge => ProxyResult([], [], 127)
    case Got(f, rest) =>
      if f.tag == TAG_EXIT then ProxyResult([], [], StatusOf(f))
      else
        var r := Demux(rest);
        ProxyResult((if f.tag == TAG_STDOUT then f.data else []) + r.stdout,
                    (if f.tag == TAG_STDERR then f.data else []) + r.stderr, r.status)
  }

  /** A result with `o` and `e` already put out before it. */
  function After(o: bytes, e: bytes, r: ProxyResult): ProxyResult {
    ProxyResult(o + r.stdout, e + r.stderr, r.status)
  }

  lemma AfterFrame(o: bytes, e: bytes, b: bytes, f: Frame, rest: bytes)
    requires ParseFrame(b) == Got(f, rest) && f.tag != TAG_EXIT
    ensures After(o, e, Demux(b))
         == After(o + if f.tag == TAG_STDOUT then f.data else [], e + if f.tag == TAG_STDERR then f.data else [],
                  Demux(rest))
  {
    hide ParseFrame, StatusOf;
    var r := Demux(rest);
    var x, y := if f.tag == TAG_STDOUT then f.data else [], if f.tag == TAG_STDERR then f.data else [];
    assert o + (x + r.stdout) == (o + x) + r.stdout;
    assert e + (y + r.stderr) == (e + y) + r.stderr;
  }

  lemma AfterNothing(r: ProxyResult)
    ensures After([], [], r) == r
  {
    assert [] + r.stdout == r.stdout && [] + r.stderr == r.stderr;
  }

  lemma DemuxAtEnd(o: bytes, e: bytes, b: bytes)
    ensures ParseFrame(b).End? ==> After(o, e, Demux(b)) == ProxyResult(o, e, 0)
    ensures ParseFrame(b).Short? || ParseFrame(b).TooLarge? ==> After(o, e, Demux(b)) == ProxyResult(o, e, 127)
    ensures ParseFrame(b).Got? && ParseFrame(b).frame.tag == TAG_EXIT ==>
              After(o, e, Demux(b)) == ProxyResult(o, e, StatusOf(ParseFrame(b).frame))
  {
    hide ParseFrame, StatusOf;
    assert o + [] == o && e + [] == e;
  }

  /** The proxy's frame loop. */
  method RunProxy(r: Reader) returns (stdout: Writer, stderr: Writer, status: int)
    modifies r
    ensures fresh(stdout) && fresh(stderr)
    ensures ProxyResult(stdout.out, stderr.out, status) == Demux(old(r.rest))
  {
    hide ParseFrame, StatusOf, Demux, After;
    stdout := new Writer();
    stderr := new Writer();
    assert After([], [], Demux(r.rest)) == Demux(r.rest) by { AfterNothing(Demux(r.rest)); }
    while true
      invariant fresh(stdout) && fresh(stderr) && stdout != stderr
      invariant After(stdout.out, stderr.out, Demux(r.rest)) == Demux(old(r.rest))
      decreases |r.rest|
    {
      ghost var o, e, b := stdout.out, stderr.out, r.rest;
      DemuxAtEnd(o, e, b);
      var f := ReadFrame(r);
      match f
      case End => return stdout, stderr, 0;
      case Short => return stdout, stderr, 127;
      case TooLarge => return stdout, stderr, 127;
      case Got(frame, rest) =>
        if frame.tag != TAG_EXIT {
          AfterFrame(o, e, b, frame, rest);
          assert o + [] == o && e + [] == e;
        }
        if frame.tag == TAG_STDOUT {
          stdout.Write(frame.data);
        } else if frame.tag == TAG_STDERR {
          stderr.Write(frame.data);
        } else if frame.tag == TAG_EXIT {
          return stdout, stderr, StatusOf(frame);
        }
    }
  }

  lemma LowByte(code: int)
    ensures U32Of(code) % 256 == code % 256
    ensures I32Of(U32Of(code)) % 256 == code % 256
  {
    var u, q := code % 0x1_0000_0000, code / 0x1_0000_0000;
    assert code == 256 * (0x100_0000 * q) + u;
    assert (u - 0x1_0000_0000) % 256 == u % 256;
  }

  /** The exit code a child leaves, sent as 32 bits and masked to a byte by the proxy, is the code modulo 256. */
  lemma ExitStatusIsModulo256(code: int)
    ensures Sendable(ExitFrame(code))
    ensures StatusOf(ExitFrame(code)) == code % 256
  {
    hide BE32, FromBE32, I32Of, U32Of;
    var u := U32Of(code);
    BE32RoundTrip(u, []);
    assert BE32(u) + [] == BE32(u);
    LowByte(code);
  }

  lemma SignumRoundTrip(signum: int32)
    ensures Sendable(SignalFrame(signum)) && Signum(SignalFrame(signum)) == signum
  {
    hide BE32, FromBE32;
    BE32RoundTrip(U32Of(signum), []);
    assert BE32(U32Of(signum)) + [] == BE32(U32Of(signum));
  }

  /** A stream made of output frames and a final exit frame demultiplexes to the frames' payloads and the code
      modulo 256, whatever bytes come after the exit frame. */
  lemma {:induction false} DemuxOfFrames(fs: seq<Frame>, code: int, after: bytes)
    requires AllSendable(fs)
    requires forall i :: 0 <= i < |fs| ==> fs[i].tag != TAG_EXIT
    ensures Sendable(ExitFrame(code))
    ensures Demux(FramesBytes(fs) + FrameBytes(ExitFrame(code)) + after)
         == ProxyResult(Payload(fs, TAG_STDOUT), Payload(fs, TAG_STDERR), code % 256)
  {
    hide BE32, FromBE32, U32Of, I32Of, FrameBytes, ParseFrame;
    ExitStatusIsModulo256(code);
    var last := FrameBytes(ExitFrame(code)) + after;
    var b := FramesBytes(fs) + FrameBytes(ExitFrame(code)) + after;
    assert b == FramesBytes(fs) + last;
    if fs == [] {
      assert b == last;
      ParseOwnFrame(ExitFrame(code), after);
    } else {
      var rest := FramesBytes(fs[1..]) + last;
      assert b == FrameBytes(fs[0]) + rest;
      ParseOwnFrame(fs[0], rest);
      DemuxOfFrames(fs[1..], code, after);
      assert rest == FramesBytes(fs[1..]) + FrameBytes(ExitFrame(code)) + after;
    }
  }

  // ---- streams that end early ----------------------------------------------------------------------------

  /** How much of a frame has arrived decides how its stream's end reads: nothing of it, or its header and no more, is a
      clean end; any other part is a short read. */
  lemma PartialEnd(f: Frame, part: bytes)
    requires Sendable(f) && part < FrameBytes(f)
    ensures ParseFrame(part) == if |part| == 0 || |part| == 5 then End else Short
  {
    hide BE32, FromBE32;
    var b := FrameBytes(f);
    if |part| >= 5 {
      assert part[1..5] == b[1..5] == BE32(|f.data|) + [];
      BE32RoundTrip(|f.data|, []);
    }
  }

  /** A stream cut anywhere before its exit frame is through: all whole frames are put out, and the status is 0 when the
      cut lies between two frames or right behind the header of one with data, 127 otherwise. `next` is the frame the
      cut falls into. */
  lemma {:induction false} CutStreamStatus(fs: seq<Frame>, next: Frame, part: bytes)
    requires AllSendable(fs) && Sendable(next) && part < FrameBytes(next)
    requires forall i :: 0 <= i < |fs| ==> fs[i].tag != TAG_EXIT
    ensures Demux(FramesBytes(fs) + part)
         == ProxyResult(Payload(fs, TAG_STDOUT), Payload(fs, TAG_STDERR),
                        if |part| == 0 || |part| == 5 then 0 else 127)
  {
    hide FrameBytes, ParseFrame, StatusOf;
    var b := FramesBytes(fs) + part;
    if fs == [] {
      assert b == part;
      PartialEnd(next, part);
    } else {
      var rest := FramesBytes(fs[1..]) + part;
      assert b == FrameBytes(fs[0]) + rest;
      ParseOwnFrame(fs[0], rest);
      CutStreamStatus(fs[1..], next, part);
    }
  }

  /** A header that announces more than a chunk ends the proxy with 127 before any of that frame is read. */
  lemma {:induction false} OversizedStatus(fs: seq<Frame>, tag: byte, n: uint32, more: bytes)
    requires AllSendable(fs) && n > 1024 * 1024 && forall i :: 0 <= i < |fs| ==> fs[i].tag != TAG_EXIT
    ensures Demux(FramesBytes(fs) + ([tag] + BE32(n) + more))
         == ProxyResult(Payload(fs, TAG_STDOUT), Payload(fs, TAG_STDERR), 127)
  {
    hide FrameBytes, StatusOf, BE32, FromBE32;
    var last := [tag] + BE32(n) + more;
    var b := FramesBytes(fs) + last;
    if fs == [] {
      assert b == last && b[1..5] == BE32(n) + [];
      BE32RoundTrip(n, []);
    } else {
      hide ParseFrame;
      var rest := FramesBytes(fs[1..]) + last;
      assert b == FrameBytes(fs[0]) + rest;
      ParseOwnFrame(fs[0], rest);
      OversizedStatus(fs[1..], tag, n, more);
    }
  }

  /** A frame that is too short for its number, or of another kind, carries exit code -1, status 255, and signal 0. */
  lemma MalformedNumbers(f: Frame)
    ensures f.tag != TAG_EXIT || |f.data| < 4 ==> ExitCode(f) == -1 && StatusOf(f) == 255
    ensures f.tag != TAG_SIGNAL || |f.data| < 4 ==> Signum(f) == 0
  {
  }
}
