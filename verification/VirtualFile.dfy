/** The macOS library's virtual descriptors over remote files (native/macos/rcc_interpose.c): a read cursor over remote
    slices, and a write buffer that is seeded from the file and sent back whole on close. */
module VirtualFile {
  import opened Bytes
  import opened Fields
  import opened Protocol
  import opened FileService
  import opened CCodec
  import FileServer
  import Paths
  import R = Responses

  // ---- reading -----------------------------------------------------------------------------------------

  datatype Whence = Set | Cur | End | Other

  datatype ReadOp = Read(n: nat) | Pread(n: nat, off: int) | Lseek(delta: int, whence: Whence)

  datatype Result = Got(data: bytes) | Failed(errno: int32) | At(pos: int)

  /** What a call asks the remote side for: the request clamped to the size known from the open. */
  function Want(size: int64, n: nat, off: int): nat {
    if off >= size then 0 else if off + n > size then size - off else n
  }

  /** rpc_pread against a service. The wanted length goes out in 32 bits; a reply that fits no frame ends the
      connection. */
  function RpcPread(s: Store, h: Handles, handle: uint64, size: int64, n: nat, off: int64): Result {
    if off >= size then Got([])
    else
      var want := Want(size, n, off);
      var reply := Serve(s, h, PreadRequest(handle, off, U32Of(want)), 0).reply;
      if !R.Sendable(OP_PREAD, reply) then Failed(EIO)
      else if reply.err != 0 then Failed(reply.err)
      else Got(if |reply.data| > want then reply.data[..want] else reply.data)
  }

  function Target(size: int64, pos: int, op: ReadOp): int
    requires op.Lseek?
  {
    match op.whence
    case Set => op.delta
    case Cur => pos + op.delta
    case _ => size + op.delta
  }

  predicate InRange(n: int) { -0x8000_0000_0000_0000 <= n < 0x8000_0000_0000_0000 }

  /** One call on a virtual read descriptor: the new cursor and the result. */
  function VirtualStep(s: Store, h: Handles, handle: uint64, size: int64, pos: int64, op: ReadOp): (int, Result)
    requires op.Pread? ==> InRange(op.off)
  {
    match op
    case Read(n) =>
      var r := RpcPread(s, h, handle, size, n, pos);
      (if r.Got? then pos + |r.data| else pos, r)
    case Pread(n, off) => (pos, RpcPread(s, h, handle, size, n, off))
    case Lseek(_, _) => (Target(size, pos, op), At(Target(size, pos, op)))
  }

  /** The same call on a local file. */
  function LocalStep(content: bytes, pos: nat, op: ReadOp): (nat, Result) {
    match op
    case Read(n) => (pos + |Slice(content, pos, n)|, Got(Slice(content, pos, n)))
    case Pread(n, off) => (pos, if off < 0 then Failed(EINVAL) else Got(Slice(content, off, n)))
    case Lseek(delta, whence) =>
      var target := match whence case Set => delta case Cur => pos + delta case _ => |content| + delta;
      if whence.Other? || target < 0 then (pos, Failed(EINVAL)) else (target, At(target))
  }

  const SLICE_MAX: nat := MAX_FRAME - 8

  /** The calls a virtual descriptor can honour: slices that fit a frame, offsets that are not negative. */
  predicate Regular(size: int64, pos: nat, op: ReadOp) {
    match op
    case Read(n) => Want(size, n, pos) <= SLICE_MAX
    case Pread(n, off) => 0 <= off && Want(size, n, off) <= SLICE_MAX
    case Lseek(_, whence) => !whence.Other? && 0 <= Target(size, pos, op)
  }

  /** A handle open for reading on an unchanged file of the size the open reported. */
  ghost predicate Reading(s: Store, h: Handles, handle: uint64, size: int64) {
    handle in h.open && h.open[handle].readable && |Content(s, h.open[handle].ino)| == size
  }

  function FileAt(s: Store, h: Handles, handle: uint64): bytes
    requires handle in h.open
  {
    Content(s, h.open[handle].ino)
  }

  lemma SliceSize(b: bytes, off: nat, n: nat)
    ensures |Slice(b, off, n)| == if off >= |b| then 0 else if off + n > |b| then |b| - off else n
  {
  }

  lemma DataFits(d: bytes)
    ensures R.Sendable(OP_PREAD, Reply(0).(data := d)) <==> |d| <= SLICE_MAX
  {
    hide BE32, U32Of, EncFields;
    var fs: seq<Field> := [F32(0), FBlob(d)];
    assert R.ResponseFields(OP_PREAD, Reply(0).(data := d)) == fs;
    EncFieldsSnoc([F32(0)], FBlob(d));
    EncFieldsSnoc([], F32(0));
    assert [] + [F32(0)] == [F32(0)] && [F32(0)] + [FBlob(d)] == fs;
    EmptyEncoding();
  }

  lemma EmptyEncoding()
    ensures EncFields([]) == []
  {
  }

  lemma OneWord(n: uint32)
    ensures |EncFields([F32(n)])| == 4
  {
    hide BE32, EncFields;
    EncFieldsSnoc([], F32(n));
    assert [] + [F32(n)] == [F32(n)];
    EmptyEncoding();
  }

  lemma ErrorFits(err: int32)
    requires err != 0
    ensures R.Sendable(OP_PREAD, Reply(err))
  {
    hide EncFields;
    OneWord(U32Of(err));
  }

  lemma ServedSlice(s: Store, h: Handles, handle: uint64, off: int64, len: uint32)
    requires handle in h.open && h.open[handle].readable
    ensures Serve(s, h, PreadRequest(handle, off, len), 0).reply
         == if off < 0 then Reply(EIO) else Reply(0).(data := Slice(FileAt(s, h, handle), off, len))
  {
    hide Find;
  }

  /** A slice read through the library is the file's own exactly when what it asks for fits a frame: longer requests
      fail, or come back short once the length no longer fits 32 bits. */
  lemma PreadIsLocalIff(s: Store, h: Handles, handle: uint64, size: int64, n: nat, off: int64)
    requires Reading(s, h, handle, size) && 0 <= off
    ensures RpcPread(s, h, handle, size, n, off) == Got(Slice(FileAt(s, h, handle), off, n))
       <==> Want(size, n, off) <= SLICE_MAX
  {
    hide Slice, Serve, R.Sendable, PreadRequest;
    var content, want := FileAt(s, h, handle), Want(size, n, off);
    SliceSize(content, off, n);
    if off < size {
      var len := U32Of(want);
      ServedSlice(s, h, handle, off, len);
      SliceSize(content, off, len);
      DataFits(Slice(content, off, len));
      if want <= SLICE_MAX {
        SameSlice(content, off, n, want);
      }
    }
  }

  lemma SameSlice(b: bytes, off: nat, n: nat, m: nat)
    requires m == n || (off + n >= |b| && off + m == |b|)
    ensures Slice(b, off, n) == Slice(b, off, m)
  {
  }

  lemma NegativeFails(s: Store, h: Handles, handle: uint64, size: int64, n: nat, off: int64)
    requires Reading(s, h, handle, size) && off < 0
    ensures RpcPread(s, h, handle, size, n, off) == Failed(EIO)
  {
    hide Slice, Serve, R.Sendable, PreadRequest;
    ServedSlice(s, h, handle, off, U32Of(Want(size, n, off)));
    ErrorFits(EIO);
  }

  /** One call on a virtual read descriptor gives the local file's result and cursor exactly when it is regular. */
  lemma StepIsLocalIff(s: Store, h: Handles, handle: uint64, size: int64, pos: int64, op: ReadOp)
    requires Reading(s, h, handle, size) && 0 <= pos && (op.Pread? ==> InRange(op.off))
    ensures VirtualStep(s, h, handle, size, pos, op) == LocalStep(FileAt(s, h, handle), pos, op)
       <==> Regular(size, pos, op)
  {
    hide Slice, RpcPread, Want;
    match op
    case Read(n) => PreadIsLocalIff(s, h, handle, size, n, pos);
    case Pread(n, off) =>
      if off < 0 {
        NegativeFails(s, h, handle, size, n, off);
      } else {
        PreadIsLocalIff(s, h, handle, size, n, off);
      }
    case Lseek(_, _) =>
  }

  /** Every call of a history is regular and keeps the cursor in 64 bits. */
  ghost predicate AllRegular(content: bytes, pos: nat, ops: seq<ReadOp>)
    requires |content| < TWO63
    decreases |ops|
  {
    ops != [] ==>
      && (ops[0].Pread? ==> InRange(ops[0].off))
      && InRange(pos) && Regular(|content|, pos, ops[0])
      && AllRegular(content, LocalStep(content, pos, ops[0]).0, ops[1..])
  }

  function LocalRun(content: bytes, pos: nat, ops: seq<ReadOp>): seq<Result>
    decreases |ops|
  {
    if ops == [] then []
    else
      var (next, r) := LocalStep(content, pos, ops[0]);
      [r] + LocalRun(content, next, ops[1..])
  }

  /** A history of calls on the virtual descriptor; it stops where the cursor leaves 64 bits. */
  function VirtualRun(s: Store, h: Handles, handle: uint64, size: int64, pos: int, ops: seq<ReadOp>): seq<Result>
    decreases |ops|
  {
    if ops == [] || !InRange(pos) || (ops[0].Pread? && !InRange(ops[0].off)) then []
    else
      var (next, r) := VirtualStep(s, h, handle, size, pos, ops[0]);
      [r] + VirtualRun(s, h, handle, size, next, ops[1..])
  }

  /** Any history of regular calls on a virtual read descriptor returns what a local file would return. */
  lemma {:induction false} HistoryIsLocal(s: Store, h: Handles, handle: uint64, size: int64, pos: nat,
                                          ops: seq<ReadOp>)
    requires Reading(s, h, handle, size) && |FileAt(s, h, handle)| < TWO63
    requires AllRegular(FileAt(s, h, handle), pos, ops)
    ensures VirtualRun(s, h, handle, size, pos, ops) == LocalRun(FileAt(s, h, handle), pos, ops)
    decreases |ops|
  {
    hide VirtualStep, LocalStep, Regular;
    if ops != [] {
      StepIsLocalIff(s, h, handle, size, pos, ops[0]);
      HistoryIsLocal(s, h, handle, size, LocalStep(FileAt(s, h, handle), pos, ops[0]).0, ops[1..]);
    }
  }

  /** A virtual read descriptor and the service behind it. */
  class ReadFile {
    const fs: FSService
    const handle: uint64
    const size: int64
    var off: int64

    constructor (fs: FSService, handle: uint64, size: int64)
      ensures this.fs == fs && this.handle == handle && this.size == size && off == 0
    {
      this.fs, this.handle, this.size, off := fs, handle, size, 0;
    }

    method RpcRead(n: nat, off: int64) returns (r: Result)
      modifies fs, fs.host
      ensures r == RpcPread(old(fs.host.Now()), old(fs.Now()), handle, size, n, off)
      ensures fs.host.Now() == old(fs.host.Now()) && fs.Now() == old(fs.Now())
    {
      hide Slice, R.Sendable, Find, HeldAt;
      if off >= size {
        return Got([]);
      }
      var want := n;
      if off + want > size {
        want := size - off;
      }
      ReadsChangeNothing(fs.host.Now(), fs.Now(), PreadRequest(handle, off, U32Of(want)));
      var reply := fs.Handle(PreadRequest(handle, off, U32Of(want)), 0);
      if !R.Sendable(OP_PREAD, reply) {
        return Failed(EIO);
      }
      if reply.err != 0 {
        return Failed(reply.err);
      }
      r := Got(if |reply.data| > want then reply.data[..want] else reply.data);
    }

    method Read(n: nat) returns (r: Result)
      requires off + n < TWO63
      modifies this, fs, fs.host
      ensures (off as int, r) == VirtualStep(old(fs.host.Now()), old(fs.Now()), handle, size, old(off), ReadOp.Read(n))
      ensures fs.host.Now() == old(fs.host.Now()) && fs.Now() == old(fs.Now())
    {
      hide RpcPread;
      r := RpcRead(n, off);
      NeverMoreThanAsked(fs.host.Now(), fs.Now(), handle, size, n, off);
      if r.Got? && |r.data| > 0 {
        off := off + |r.data|;
      }
    }

    method Seek(delta: int, whence: Whence) returns (pos: int)
      requires InRange(Target(size, off, Lseek(delta, whence)))
      modifies this
      ensures (off as int, At(pos))
           == VirtualStep(fs.host.Now(), fs.Now(), handle, size, old(off), Lseek(delta, whence))
    {
      pos := off;
      if whence.Set? {
        pos := delta;
      } else if whence.Cur? {
        pos := pos + delta;
      } else {
        pos := size + delta;
      }
      off := pos;
    }
  }

  lemma ReadsChangeNothing(s: Store, h: Handles, q: Request)
    requires q.op == OP_PREAD
    ensures Serve(s, h, q, 0).store == s && Serve(s, h, q, 0).handles == h
  {
    hide Slice, Find, HeldAt;
  }

  lemma NeverMoreThanAsked(s: Store, h: Handles, handle: uint64, size: int64, n: nat, off: int64)
    ensures var r := RpcPread(s, h, handle, size, n, off); r.Got? ==> |r.data| <= n
  {
    hide Serve, R.Sendable;
  }

  /** A read-only open of an existing file leaves a handle that reads it, with its size. */
  lemma OpenedForReading(s: Store, h: Handles, path: bytes)
    requires ValidStore(s) && Find(s, path).Some? && |Find(s, path).value.content| < TWO63
    ensures var o := Serve(s, h, OpenRequest(0, path), 0);
            && o.reply.err == 0 && o.store == s && o.reply.handle == h.next
            && o.reply.size == |Find(s, path).value.content| && o.reply.handle in o.handles.open
            && Reading(o.store, o.handles, o.reply.handle, o.reply.size)
            && FileAt(o.store, o.handles, o.reply.handle) == Find(s, path).value.content
            && (h.next !in h.open ==> o.handles.open - {h.next} == h.open)
  {
    hide Paths.Clean;
  }

  // ---- writing -----------------------------------------------------------------------------------------

  datatype WriteOp = Append(d: bytes) | WriteAt(off: nat, d: bytes)

  function Edited(b: bytes, op: WriteOp): bytes {
    match op
    case Append(d) => b + d
    case WriteAt(off, d) => Overwrite(b, off, d)
  }

  /** A file's bytes after a list of writes. */
  function AllEdited(b: bytes, ops: seq<WriteOp>): bytes {
    if ops == [] then b else Edited(AllEdited(b, ops[..|ops| - 1]), ops[|ops| - 1])
  }

  /** No write starts beyond the end of what is there by then. */
  predicate GapFree(b: bytes, ops: seq<WriteOp>) {
    forall i :: 0 <= i < |ops| && ops[i].WriteAt? ==> ops[i].off <= |AllEdited(b, ops[..i])|
  }

  // ---- the bytes of a flush ----------------------------------------------------------------------------

  /** The part of a buffer that its 32-bit length covers. */
  function Cut(data: bytes): bytes { data[..|data| % TWO32] }

  /** Whether the part that is covered fits a frame. */
  predicate Arrives(path: bytes, data: bytes) { |path| + |data| % TWO32 + 9 <= MAX_FRAME }

  function FlushBody(path: bytes, data: bytes): bytes { EncFields(RequestFields(WriteFileRequest(path, data))) }

  lemma FlushBodyIs(path: bytes, data: bytes)
    ensures FlushBody(path, data)
         == [OP_WRITEFILE] + BE32(U32Of(|path|)) + path + BE32(U32Of(|data|)) + data
  {
    hide BE32, U32Of, EncFields;
    var one: seq<Field> := [F8(OP_WRITEFILE)];
    var two: seq<Field> := [F8(OP_WRITEFILE), FBlob(path)];
    var three: seq<Field> := [F8(OP_WRITEFILE), FBlob(path), FBlob(data)];
    assert RequestFields(WriteFileRequest(path, data)) == three;
    EmptyEncoding();
    EncFieldsSnoc([], F8(OP_WRITEFILE));
    assert [] + [F8(OP_WRITEFILE)] == one && one + [FBlob(path)] == two && two + [FBlob(data)] == three;
    EncFieldsSnoc(one, FBlob(path));
    EncFieldsSnoc(two, FBlob(data));
  }

  /** A buffer fits a frame of its own exactly when it and its path are 9 bytes below the limit. */
  lemma WriteFileFits(path: bytes, data: bytes)
    ensures Protocol.Sendable(WriteFileRequest(path, data)) <==> |path| + |data| + 9 <= MAX_FRAME
  {
    hide BE32, U32Of, EncFields, RequestFields;
    FlushBodyIs(path, data);
  }

  /** What is sent for a buffer is what would be sent for the part its length covers, and then the rest. */
  lemma FlushBodySplits(path: bytes, data: bytes)
    ensures FlushBody(path, data) == FlushBody(path, Cut(data)) + data[|data| % TWO32..]
    ensures |FlushBody(path, Cut(data))| == |path| + |data| % TWO32 + 9
  {
    hide BE32, EncFields, RequestFields, FlushBody;
    var k := |data| % TWO32;
    FlushBodyIs(path, data);
    FlushBodyIs(path, Cut(data));
    assert U32Of(|data|) == U32Of(k);
    assert data == data[..k] + data[k..];
  }

  /** A frame whose length is reduced by a multiple of 2^32 ends where its covered part ends, if that fits. */
  lemma FrameOfSplit(front: bytes, back: bytes)
    requires |front| < 2 * TWO32 && |back| % TWO32 == 0
    ensures |front| <= MAX_FRAME ==> ParseFrame(Frame(front + back)) == Body(front, back)
    ensures |front| > MAX_FRAME ==> var f := ParseFrame(Frame(front + back)); f.Body? ==> f.body < front
  {
    hide BE32, FromBE32;
    var n := U32Of(|front + back|);
    SameRemainder(|front|, |back|);
    BE32RoundTrip(n, front + back);
    var b := Frame(front + back);
    assert b[4..] == front + back;
    if n <= MAX_FRAME && n <= |front + back| {
      assert b[4..4 + n] == (front + back)[..n] && b[4 + n..] == (front + back)[n..];
    }
  }

  lemma SameRemainder(a: nat, b: nat)
    requires a < 2 * TWO32 && b % TWO32 == 0
    ensures U32Of(a + b) == if a < TWO32 then a else a - TWO32
  {
    assert b == (b / TWO32) * TWO32;
  }

  /** What the other side reads first of a flushed buffer: the covered part of it as a WRITEFILE, with the rest of the
      buffer still to be read, if that part fits a frame, and otherwise nothing. */
  lemma FirstOfFlush(path: bytes, data: bytes)
    requires |path| < TWO32 - 9
    ensures var f := ParseFrame(Frame(FlushBody(path, data)));
            if Arrives(path, data)
            then f.Body? && f.rest == data[|data| % TWO32..]
                 && DecodeRequest(f.body) == Some(WriteFileRequest(path, Cut(data)))
            else !f.Body? || DecodeRequest(f.body).None?
  {
    hide ParseFrame, Frame, DecodeRequest, EncFields, FlushBody, RequestFields;
    var front, back := FlushBody(path, Cut(data)), data[|data| % TWO32..];
    FlushBodySplits(path, data);
    FrameOfSplit(front, back);
    var q := WriteFileRequest(path, Cut(data));
    FlushFits(path, Cut(data));
    if Arrives(path, data) {
      RequestRoundTrip(q, []);
      assert front + [] == front;
    } else {
      var f := ParseFrame(Frame(FlushBody(path, data)));
      if f.Body? {
        RequestTruncated(q, f.body);
      }
    }
  }

  lemma FlushFits(path: bytes, data: bytes)
    requires |path| < TWO32 && |data| < TWO32
    ensures AllFit(RequestFields(WriteFileRequest(path, data)))
    ensures Relevant(WriteFileRequest(path, data)) == WriteFileRequest(path, data)
    ensures FlushBody(path, data) == EncFields(RequestFields(WriteFileRequest(path, data)))
  {
    hide EncFields;
  }

  // ---- the descriptor -----------------------------------------------------------------------------------

  const SLURP: uint32 := 65536

  class WriteFile {
    const fs: FSService
    const path: bytes
    var wbuf: array<byte>
    var wlen: nat

    ghost predicate Valid()
      reads this
    {
      wlen <= wbuf.Length && wbuf.Length > 0
    }

    function Contents(): bytes
      requires Valid()
      reads this, wbuf
    {
      wbuf[..wlen]
    }

    constructor (fs: FSService, path: bytes)
      ensures this.fs == fs && this.path == path && fresh(wbuf)
      ensures Valid() && Contents() == []
    {
      this.fs, this.path := fs, path;
      wbuf, wlen := new byte[4096], 0;
    }

    /** Doubles the allocation until `need` bytes fit. */
    method Grow(need: nat)
      requires Valid()
      modifies this`wbuf
      ensures Valid() && need <= wbuf.Length && (wbuf == old(wbuf) || fresh(wbuf))
      ensures Contents() == old(Contents())
    {
      if need > wbuf.Length {
        var cap := wbuf.Length;
        while need > cap
          invariant cap >= wbuf.Length
          decreases need - cap
        {
          cap := cap * 2;
        }
        var grown := new byte[cap];
        CopyInto(grown, 0, wbuf[..wlen]);
        assert grown[..wlen] == grown[0..wlen];
        wbuf := grown;
      }
    }

    /** `write`: always at the end. */
    method Write(d: bytes)
      requires Valid()
      modifies this, wbuf
      ensures Valid() && (wbuf == old(wbuf) || fresh(wbuf))
      ensures Contents() == old(Contents()) + d
    {
      Grow(wlen + |d|);
      CopyInto(wbuf, wlen, d);
      assert wbuf[..wlen + |d|] == wbuf[..wlen] + wbuf[wlen..wlen + |d|];
      wlen := wlen + |d|;
    }

    /** `pwrite`: a plain overwrite unless it starts beyond the end, when the bytes in between are arbitrary. */
    method Pwrite(d: bytes, off: nat)
      requires Valid()
      modifies this, wbuf
      ensures Valid() && (wbuf == old(wbuf) || fresh(wbuf))
      ensures wlen == if off + |d| > old(wlen) then off + |d| else old(wlen)
      ensures off <= old(wlen) ==> Contents() == Overwrite(old(Contents()), off, d)
      ensures off > old(wlen) ==> old(Contents()) <= Contents() && Contents()[off..] == d
    {
      ghost var was := Contents();
      Grow(off + |d|);
      ghost var room := wbuf[..];
      CopyInto(wbuf, off, d);
      assert wbuf[..] == wbuf[..off] + wbuf[off..off + |d|] + wbuf[off + |d|..];
      Overlaid(room, was, off, d);
      if off + |d| > wlen {
        wlen := off + |d|;
      }
      assert Contents() == wbuf[..][..wlen];
    }

    /** Reads the whole file into the buffer in slices, through a handle of its own. */
    method Slurp(size: int64)
      requires Valid() && Contents() == []
      requires ValidStore(fs.host.Now()) && fs.next !in fs.open
      requires Find(fs.host.Now(), path).Some? && |Find(fs.host.Now(), path).value.content| == size
      modifies this, wbuf, fs, fs.host
      ensures Valid() && (wbuf == old(wbuf) || fresh(wbuf))
      ensures Contents() == Find(old(fs.host.Now()), path).value.content
      ensures fs.host.Now() == old(fs.host.Now()) && fs.open == old(fs.open)
    {
      hide Serve, Find, R.Sendable, PreadRequest, OpenRequest, CloseRequest, Slice, Reading, FileAt;
      ghost var s, h0 := fs.host.Now(), fs.Now();
      ghost var content := Find(s, path).value.content;
      var o: int64 := 0;
      if o < size { // a loop whose body always leaves it
        OpenedForReading(s, h0, path);
        IsFileOp(0, path, 0, 0);
        var reply := fs.Handle(OpenRequest(0, path), 0);
        var h := reply.handle;
        ghost var handles := fs.Now();
        while true
          invariant 0 <= o <= size && Valid() && Contents() == content[..o]
          invariant wbuf == old(wbuf) || fresh(wbuf)
          invariant fs.host.Now() == s && fs.Now() == handles
          decreases size - o
        {
          IsFileOp(0, path, h, o);
          SliceServed(s, handles, h, o, size);
          ReadsChangeNothing(s, handles, PreadRequest(h, o, SLURP));
          var got := fs.Handle(PreadRequest(h, o, SLURP), 0);
          if !R.Sendable(OP_PREAD, got) || got.err != 0 || got.data == [] {
            break;
          }
          NextSlice(content, o);
          Write(got.data);
          o := o + |got.data|;
        }
        assert content[..size] == content;
        IsFileOp(0, path, h, 0);
        CloseForgets(s, handles, h);
        var closed := fs.Handle(CloseRequest(h), 0);
      }
    }

    /** Sends the whole buffer in one WRITEFILE, both lengths in 32 bits and no limit checked, and has the other side
        serve the request that its bytes start with, if there is one. */
    method Close(newIno: Ino)
      requires Valid() && |path| < TWO32 - 9
      modifies fs, fs.host
      ensures fs.host.Now()
           == if Arrives(path, Contents())
              then Serve(old(fs.host.Now()), old(fs.Now()), WriteFileRequest(path, Cut(Contents())), newIno).store
              else old(fs.host.Now())
    {
      hide Serve, ParseFrame, DecodeRequest, Frame, Arrives, Cut, EncFields;
      FirstOfFlush(path, wbuf[..wlen]);
      var body := WriteFileBody(path, wbuf, wlen);
      var f := ParseFrame(Frame(body));
      if f.Body? {
        var q := DecodeRequest(f.body);
        if q.Some? {
          var done := fs.Handle(q.value, newIno);
        }
      }
    }
  }

  lemma IsFileOp(flags: uint32, path: bytes, handle: uint64, off: int64)
    ensures PreadRequest(handle, off, SLURP).op == OP_PREAD
    ensures OnFiles(OpenRequest(flags, path).op) && OnFiles(CloseRequest(handle).op)
  {
  }

  /** A slice of the slurp always fits a frame, and it is empty only at the end of the file. */
  lemma SliceServed(s: Store, h: Handles, handle: uint64, o: int64, size: int64)
    requires Reading(s, h, handle, size) && 0 <= o <= size
    ensures var p := Serve(s, h, PreadRequest(handle, o, SLURP), 0).reply;
            && R.Sendable(OP_PREAD, p) && p.err == 0 && p.data == Slice(FileAt(s, h, handle), o, SLURP)
            && |p.data| == if size - o < SLURP then size - o else SLURP
  {
    hide Slice, Serve, R.Sendable, PreadRequest;
    var content := FileAt(s, h, handle);
    ServedSlice(s, h, handle, o, SLURP);
    SliceSize(content, o, SLURP);
    DataFits(Slice(content, o, SLURP));
  }

  lemma NextSlice(b: bytes, o: nat)
    requires o <= |b|
    ensures o + |Slice(b, o, SLURP)| <= |b| && b[..o] + Slice(b, o, SLURP) == b[..o + |Slice(b, o, SLURP)|]
  {
  }

  lemma CloseForgets(s: Store, h: Handles, handle: uint64)
    requires handle in h.open
    ensures Serve(s, h, CloseRequest(handle), 0) == Outcome(s, h.(open := h.open - {handle}), Reply(0))
  {
    hide Find;
  }

  /** Copying over the front of an allocation is overwriting what it holds. */
  lemma Overlaid(room: bytes, was: bytes, off: nat, d: bytes)
    requires was <= room && off + |d| <= |room|
    ensures var all := room[..off] + d + room[off + |d|..];
            var len := if off + |d| > |was| then off + |d| else |was|;
            && |all| == |room|
            && (off <= |was| ==> all[..len] == Overwrite(was, off, d))
            && (off > |was| ==> was <= all[..len] && all[..len][off..] == d)
  {
    var all := room[..off] + d + room[off + |d|..];
    var len := if off + |d| > |was| then off + |d| else |was|;
    if off <= |was| {
      assert was[..off] == room[..off];
      if off + |d| <= |was| {
        assert all[..len] == was[..off] + d + was[off + |d|..];
      } else {
        assert all[..len] == was[..off] + d;
      }
    } else {
      assert was == all[..|was|];
    }
  }

  /** What opening for writing starts from: nothing when truncating or creating, otherwise the file's bytes. */
  function StartOf(s: Store, path: bytes, truncate: bool): bytes {
    if truncate || Find(s, path).None? then [] else Find(s, path).value.content
  }

  /** A file opened without truncation and only appended to keeps its bytes in front; a truncated or new one starts
      with what is written first. */
  lemma AppendsKeepTheStart(s: Store, path: bytes, truncate: bool, ops: seq<WriteOp>)
    requires forall i :: 0 <= i < |ops| ==> ops[i].Append?
    ensures var data := AllEdited(StartOf(s, path, truncate), ops);
            if Find(s, path).Some? && !truncate
            then Find(s, path).value.content <= data
                 && data[|Find(s, path).value.content|..] == AllAppended(ops)
            else data == AllAppended(ops)
  {
    hide Find;
    AppendedTo(StartOf(s, path, truncate), ops);
    assert [] + AllAppended(ops) == AllAppended(ops);
  }

  function AllAppended(ops: seq<WriteOp>): bytes
    requires forall i :: 0 <= i < |ops| ==> ops[i].Append?
  {
    if ops == [] then [] else AllAppended(ops[..|ops| - 1]) + ops[|ops| - 1].d
  }

  lemma {:induction false} AppendedTo(b: bytes, ops: seq<WriteOp>)
    requires forall i :: 0 <= i < |ops| ==> ops[i].Append?
    ensures AllEdited(b, ops) == b + AllAppended(ops)
  {
    if ops == [] {
      assert b + [] == b;
    } else {
      AppendedTo(b, ops[..|ops| - 1]);
      var d := ops[|ops| - 1].d;
      assert b + AllAppended(ops[..|ops| - 1]) + d == b + (AllAppended(ops[..|ops| - 1]) + d);
    }
  }

  /** The life of one write descriptor: open, any gap-free writes, close. The file then holds what those writes make of
      the bytes it started from, cut to the length that 32 bits hold of it, as long as that fits one frame; otherwise
      nothing at all has changed. */
  method Edit(fs: FSService, path: bytes, truncate: bool, ops: seq<WriteOp>, newIno: Ino)
    requires ValidStore(fs.host.Now()) && fs.next !in fs.open && |path| < TWO32 - 9
    requires |StartOf(fs.host.Now(), path, truncate)| < TWO63
    requires GapFree(StartOf(fs.host.Now(), path, truncate), ops)
    modifies fs, fs.host
    ensures var data := AllEdited(StartOf(old(fs.host.Now()), path, truncate), ops);
            && (Arrives(path, data) && path != [] ==>
                  Find(fs.host.Now(), path).Some? && Find(fs.host.Now(), path).value.content == Cut(data))
            && (!Arrives(path, data) ==> fs.host.Now() == old(fs.host.Now()))
  {
    hide Serve, Find, Arrives, Cut, WriteFileRequest, Edited;
    ghost var s, start := fs.host.Now(), StartOf(fs.host.Now(), path, truncate);
    var err, size := fs.host.Stat(path);
    var f := new WriteFile(fs, path);
    if err == 0 && !truncate {
      FoundSize(s, path);
      f.Slurp(size);
    }
    assert f.Contents() == start by {
      FoundSize(s, path);
    }
    assert ops[..0] == [];
    for i := 0 to |ops|
      invariant f.Valid() && f.Contents() == AllEdited(start, ops[..i]) && fs.host.Now() == s
      invariant fresh(f) && fresh(f.wbuf)
    {
      OneMoreEdit(start, ops, i);
      match ops[i]
      case Append(d) => f.Write(d);
      case WriteAt(off, d) =>
        assert off <= |AllEdited(start, ops[..i])|;
        f.Pwrite(d, off);
    }
    assert ops[..|ops|] == ops;
    ghost var h := fs.Now();
    WriteFileWrites(s, h, path, Cut(f.Contents()), newIno);
    f.Close(newIno);
  }

  lemma FoundSize(s: Store, path: bytes)
    ensures Find(s, path).Some? && |Find(s, path).value.content| < TWO63 ==>
              SizeOf(Find(s, path).value.content) == |Find(s, path).value.content|
  {
    hide Find;
  }

  lemma OneMoreEdit(b: bytes, ops: seq<WriteOp>, i: nat)
    requires i < |ops|
    ensures AllEdited(b, ops[..i + 1]) == Edited(AllEdited(b, ops[..i]), ops[i])
    ensures ops[i].Append? ==> AllEdited(b, ops[..i + 1]) == AllEdited(b, ops[..i]) + ops[i].d
    ensures ops[i].WriteAt? ==>
              AllEdited(b, ops[..i + 1]) == Overwrite(AllEdited(b, ops[..i]), ops[i].off, ops[i].d)
  {
    hide Overwrite;
    assert ops[..i + 1][..i] == ops[..i];
  }

  /** The whole of a flush at the other side's loop: a buffer below 4 GiB is one request or none; of a larger one, what
      its length does not cover is read on as requests. */
  lemma FlushServed(s: Store, h: Handles, path: bytes, data: bytes, inos: nat -> Ino)
    requires |path| < TWO32 - 9
    requires FileServer.FilesOnly(ReadRequests(Frame(FlushBody(path, data))).requests)
    ensures !Arrives(path, data)
            ==> FileServer.ServeBytes(s, h, Frame(FlushBody(path, data)), 0, inos) == FileServer.Loop(s, h, [])
    ensures Arrives(path, data)
            ==> && FileServer.FilesOnly(ReadRequests(data[|data| % TWO32..]).requests)
                && var o := Serve(s, h, WriteFileRequest(path, Cut(data)), inos(0));
                   var more := FileServer.ServeBytes(o.store, o.handles, data[|data| % TWO32..], 1, inos);
                   FileServer.ServeBytes(s, h, Frame(FlushBody(path, data)), 0, inos)
                   == more.(out := R.ResponseFrame(OP_WRITEFILE, o.reply) + more.out)
  {
    hide ParseFrame, Frame, DecodeRequest, EncFields, FlushBody, RequestFields, Serve, R.ResponseFrame, R.Sendable;
    hide FileServer.FilesOnly, Arrives, Cut;
    FirstOfFlush(path, data);
    FileServer.OneRound(s, h, Frame(FlushBody(path, data)), 0, inos);
    ErrnoFits(Serve(s, h, WriteFileRequest(path, Cut(data)), inos(0)).reply);
  }

  lemma ErrnoFits(r: Response)
    ensures R.Sendable(OP_WRITEFILE, r)
  {
    hide EncFields;
    OneWord(if r.err != 0 then U32Of(r.err) else 0);
  }

  lemma WriteFileWrites(s: Store, h: Handles, path: bytes, data: bytes, newIno: Ino)
    ensures var s' := Serve(s, h, WriteFileRequest(path, data), newIno).store;
            path != [] ==> Find(s', path).Some? && Find(s', path).value.content == data
  {
    hide Paths.Clean;
  }
}
