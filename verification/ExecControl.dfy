/** The two ends of the proxy-to-executor stream as programs: the spawn header (internal/execproto), the proxy's stdin
    pump (cmd/rca) and the executor's control loop (internal/executor). */
module ExecControl {
  import opened Bytes
  import opened Streams
  import opened ExecProto
  import ExecUplink

  // ---- the spawn header --------------------------------------------------------------------------------

  function HeaderBytes(body: bytes): bytes { BE32(U32Of(|body|)) + body }

  datatype Header = Header(body: bytes, rest: bytes)

  function ParseHeader(b: bytes): Option<Header> {
    if |b| < 4 then None
    else
      var n := FromBE32(b);
      if n > ExecUplink.MAX_REQUEST || |b| - 4 < n then None else Some(Header(b[4..4 + n], b[4 + n..]))
  }

  /** A spawn header reads back exactly when its body is within the reader's limit, whatever follows it. */
  lemma HeaderRoundTripIff(body: bytes, rest: bytes)
    ensures ParseHeader(HeaderBytes(body) + rest) == Some(Header(body, rest)) <==> |body| <= ExecUplink.MAX_REQUEST
  {
    hide BE32, FromBE32;
    var b, n := HeaderBytes(body) + rest, U32Of(|body|);
    BE32RoundTrip(n, body + rest);
    assert b == BE32(n) + (body + rest);
    if |body| <= ExecUplink.MAX_REQUEST {
      assert b[4..4 + |body|] == body && b[4 + |body|..] == rest;
    }
  }

  method WriteSpawnRequest(w: Writer, body: bytes)
    modifies w
    ensures w.out == old(w.out) + HeaderBytes(body)
  {
    hide BE32, U32Of;
    w.Write(BE32(U32Of(|body|)));
    w.Write(body);
    assert old(w.out) + BE32(U32Of(|body|)) + body == old(w.out) + HeaderBytes(body);
  }

  method ReadSpawnRequest(r: Reader) returns (body: Option<bytes>)
    modifies r
    ensures match ParseHeader(old(r.rest))
            case None => body == None
            case Some(h) => body == Some(h.body) && r.rest == h.rest
  {
    hide FromBE32;
    var hdr := r.ReadFull(4);
    if !hdr.Full? {
      return None;
    }
    SameWord(hdr.data, old(r.rest));
    var n := FromBE32(hdr.data);
    if n > ExecUplink.MAX_REQUEST {
      return None;
    }
    var d := r.ReadFull(n);
    if !d.Full? {
      return None;
    }
    assert d.data == old(r.rest)[4..4 + n];
    return Some(d.data);
  }

  // ---- the executor's control loop ---------------------------------------------------------------------

  /** What the loop has done to the child. */
  datatype Effects = Effects(stdin: bytes, closed: bool, signals: seq<int32>)

  function Take(e: Effects, f: Frame): Effects {
    if f.tag == TAG_SIGNAL then e.(signals := e.signals + [Signum(f)])
    else if f.tag == TAG_STDIN then
      if f.data == [] then e.(closed := true) else if e.closed then e else e.(stdin := e.stdin + f.data)
    else e
  }

  /** Whatever ends the stream, the child's stdin is closed then. */
  function TakeAll(e: Effects, b: bytes): Effects
    decreases |b|
  {
    var r := ParseFrame(b);
    if r.Got? then TakeAll(Take(e, r.frame), r.rest) else e.(closed := true)
  }

  /** The stdin pipe of a child that keeps reading it, so that every write goes through. */
  class ChildStdin {
    var data: bytes
    var closed: bool

    constructor ()
      ensures data == [] && !closed
    {
      data, closed := [], false;
    }

    method Write(d: bytes)
      modifies this
      ensures data == (if old(closed) then old(data) else old(data) + d) && closed == old(closed)
    {
      if !closed {
        data := data + d;
      }
    }

    method Close()
      modifies this
      ensures closed && data == old(data)
    {
      closed := true;
    }
  }

  method ControlLoop(r: Reader, stdin: ChildStdin) returns (signals: seq<int32>)
    modifies r, stdin
    ensures Effects(stdin.data, stdin.closed, signals)
         == TakeAll(Effects(old(stdin.data), old(stdin.closed), []), old(r.rest))
  {
    hide ParseFrame, Signum, TakeAll;
    signals := [];
    ghost var all := TakeAll(Effects(stdin.data, stdin.closed, []), r.rest);
    while true
      invariant TakeAll(Effects(stdin.data, stdin.closed, signals), r.rest) == all
      decreases |r.rest|
    {
      TakeOne(Effects(stdin.data, stdin.closed, signals), r.rest);
      var read := ReadFrame(r);
      if !read.Got? {
        stdin.Close();
        return;
      }
      var f := read.frame;
      if f.tag == TAG_SIGNAL {
        signals := signals + [Signum(f)];
      } else if f.tag == TAG_STDIN {
        if |f.data| == 0 {
          stdin.Close();
        } else {
          stdin.Write(f.data);
        }
      }
    }
  }

  lemma TakeOne(e: Effects, b: bytes)
    ensures TakeAll(e, b)
         == if ParseFrame(b).Got? then TakeAll(Take(e, ParseFrame(b).frame), ParseFrame(b).rest)
            else e.(closed := true)
  {
    hide ParseFrame, Take;
  }

  /** The loop does what one step of the state machine over all interleavings does, once that has written the frame
      out to the child's pipe. */
  lemma TakeIsControl(x: ExecUplink.Executor, f: Frame, rest: bytes)
    requires x.feeding == []
    ensures var y := ExecUplink.Control(x, f, rest);
            Effects(y.childStdin + y.feeding, y.stdinClosed, y.signals)
            == Take(Effects(x.childStdin, x.stdinClosed, x.signals), f)
  {
    hide Signum;
  }

  /** The stdin bytes of a list of frames before its first empty stdin frame. */
  function StdinIn(fs: seq<Frame>): bytes {
    if fs == [] || ExecUplink.IsEof(fs[0]) then []
    else (if fs[0].tag == TAG_STDIN then fs[0].data else []) + StdinIn(fs[1..])
  }

  /** The child gets the stdin bytes up to the first end-of-input frame and every signal, each once and in order; a
      stream cut inside a frame loses only that frame. */
  lemma {:induction false} ControlOfFrames(e: Effects, fs: seq<Frame>, part: bytes)
    requires AllSendable(fs) && !ParseFrame(part).Got?
    ensures TakeAll(e, FramesBytes(fs) + part)
         == Effects(e.stdin + if e.closed then [] else StdinIn(fs), true, e.signals + SignalsOf(fs))
    decreases |fs|
  {
    hide FrameBytes, ParseFrame, Signum;
    var b := FramesBytes(fs) + part;
    TakeOne(e, b);
    if fs == [] {
      assert b == part;
      assert e.stdin + [] == e.stdin && e.signals + [] == e.signals;
    } else {
      var rest := FramesBytes(fs[1..]) + part;
      assert b == FrameBytes(fs[0]) + rest;
      ParseOwnFrame(fs[0], rest);
      ControlOfFrames(Take(e, fs[0]), fs[1..], part);
      TakeThenRest(e, fs);
    }
  }

  lemma TakeThenRest(e: Effects, fs: seq<Frame>)
    requires fs != []
    ensures var d, rest := Take(e, fs[0]), fs[1..];
            Effects(d.stdin + (if d.closed then [] else StdinIn(rest)), true, d.signals + SignalsOf(rest))
            == Effects(e.stdin + (if e.closed then [] else StdinIn(fs)), true, e.signals + SignalsOf(fs))
  {
    hide Signum;
    var f, rest := fs[0], fs[1..];
    assert e.signals + [Signum(f)] + SignalsOf(rest) == e.signals + ([Signum(f)] + SignalsOf(rest));
    assert [] + SignalsOf(rest) == SignalsOf(rest) && [] + StdinIn(rest) == StdinIn(rest);
    assert e.stdin + f.data + StdinIn(rest) == e.stdin + (f.data + StdinIn(rest));
    assert e.stdin + [] == e.stdin;
  }

  // ---- the proxy's stdin pump --------------------------------------------------------------------------

  /** Sends everything read from stdin in frames that are never empty, and then one empty frame. */
  method PumpStdin(stdin: Reader, w: Writer) returns (ghost frames: seq<Frame>)
    modifies stdin, w
    ensures AllSendable(frames) && w.out == old(w.out) + FramesBytes(frames)
    ensures frames != [] && frames[|frames| - 1] == Chunk(TAG_STDIN, [])
    ensures forall i :: 0 <= i < |frames| - 1 ==> frames[i].tag == TAG_STDIN && frames[i].data != []
    ensures Payload(frames, TAG_STDIN) == old(stdin.rest)
  {
    hide FrameBytes, FramesBytes, Payload;
    frames := Pump(stdin, TAG_STDIN, w);
    WriteChunk(w, TAG_STDIN, []);
    FramesSnoc(frames, Chunk(TAG_STDIN, []));
    assert Payload(frames, TAG_STDIN) + [] == Payload(frames, TAG_STDIN);
    frames := frames + [Chunk(TAG_STDIN, [])];
  }

  lemma {:induction false} StdinOfPumped(fs: seq<Frame>)
    requires forall i :: 0 <= i < |fs| ==> fs[i].tag == TAG_STDIN && fs[i].data != []
    ensures StdinIn(fs + [Chunk(TAG_STDIN, [])]) == Payload(fs, TAG_STDIN)
    ensures SignalsOf(fs + [Chunk(TAG_STDIN, [])]) == []
  {
    var all := fs + [Chunk(TAG_STDIN, [])];
    if fs == [] {
      assert all[1..] == [];
    } else {
      assert all[0] == fs[0] && all[1..] == fs[1..] + [Chunk(TAG_STDIN, [])];
      StdinOfPumped(fs[1..]);
    }
  }

  /** Pumped through the stream and taken off it by the control loop, stdin reaches the child whole, and is closed. */
  lemma PumpedStdinArrives(fs: seq<Frame>, stdin: bytes)
    requires AllSendable(fs) && Payload(fs, TAG_STDIN) == stdin
    requires forall i :: 0 <= i < |fs| ==> fs[i].tag == TAG_STDIN && fs[i].data != []
    ensures TakeAll(Effects([], false, []), FramesBytes(fs + [Chunk(TAG_STDIN, [])])) == Effects(stdin, true, [])
  {
    hide FramesBytes, ParseFrame, Payload, StdinIn, SignalsOf, TakeAll, Chunk, AllSendable;
    var all := fs + [Chunk(TAG_STDIN, [])];
    var none: bytes := [];
    var noSignals: seq<int32> := [];
    assert AllSendable(all) by {
      EofIsSendable(fs);
    }
    EmptyIsNoFrame();
    ControlOfFrames(Effects(none, false, noSignals), all, none);
    assert FramesBytes(all) + none == FramesBytes(all);
    StdinOfPumped(fs);
    assert none + stdin == stdin && noSignals + noSignals == noSignals;
  }

  lemma EofIsSendable(fs: seq<Frame>)
    requires AllSendable(fs)
    ensures AllSendable(fs + [Chunk(TAG_STDIN, [])])
  {
  }

  lemma EmptyIsNoFrame()
    ensures !ParseFrame([]).Got?
  {
  }
}
