/** The IO-RPC wire format (internal/protocol): framing, thirteen request layouts and their responses. */
module Protocol {
  import opened Bytes
  import opened Streams
  import opened Fields

  const OP_STAT: byte := 1
  const OP_OPEN: byte := 2
  const OP_PREAD: byte := 3
  const OP_WRITEFILE: byte := 4
  const OP_CLOSE: byte := 5
  const OP_READDIR: byte := 6
  const OP_PWRITE: byte := 7
  const OP_CREATE: byte := 8
  const OP_UNLINK: byte := 9
  const OP_MKDIR: byte := 10
  const OP_RENAME: byte := 11
  const OP_SETATTR: byte := 12
  const OP_SERVERINFO: byte := 13

  const MAX_FRAME: nat := 64 * 0x10_0000

  datatype Request = Request(
    op: byte, path: bytes, path2: bytes, flags: uint32, mode: uint32, mask: uint32, handle: uint64,
    off: int64, len: uint32, size: int64, atime: int64, mtime: int64, data: bytes)

  datatype Response = Response(
    err: int32, mode: uint32, size: int64, handle: uint64, mtime: int64, data: bytes,
    names: seq<bytes>, types: bytes, os: bytes, arch: bytes)

  function Blank(op: byte): Request { Request(op, [], [], 0, 0, 0, 0, 0, 0, 0, 0, 0, []) }

  function Reply(err: int32): Response { Response(err, 0, 0, 0, 0, [], [], [], [], []) }

  // ---- framing -----------------------------------------------------------------------------------------

  function Frame(body: bytes): bytes { BE32(U32Of(|body|)) + body }

  datatype FrameRead = Body(body: bytes, rest: bytes) | End | Short | TooLarge

  function ParseFrame(b: bytes): FrameRead {
    if |b| < 4 then (if b == [] then End else Short)
    else
      var n := FromBE32(b);
      if n > MAX_FRAME then TooLarge
      else if |b| - 4 < n then (if |b| == 4 then End else Short)
      else Body(b[4..4 + n], b[4 + n..])
  }

  lemma FrameRoundTrip(body: bytes, rest: bytes)
    requires |body| <= MAX_FRAME
    ensures ParseFrame(Frame(body) + rest) == Body(body, rest)
  {
    hide BE32, FromBE32;
    var b := Frame(body) + rest;
    BE32RoundTrip(|body|, body + rest);
    assert b == BE32(U32Of(|body|)) + (body + rest);
    assert b[4..4 + |body|] == body && b[4 + |body|..] == rest;
  }

  /** A strict prefix of a frame is no frame. Cut right behind the length it reads as a clean end, like nothing at all,
      and cut anywhere else as a short read. */
  lemma FrameTruncated(body: bytes, p: bytes)
    requires |body| <= MAX_FRAME && p < Frame(body)
    ensures ParseFrame(p) == if |p| == 0 || |p| == 4 then End else Short
  {
    hide BE32, FromBE32;
    if |p| >= 4 {
      var word := BE32(U32Of(|body|));
      BE32RoundTrip(|body|, p[4..]);
      assert p[..4] == (word + body)[..4] == word;
      assert p == word + p[4..];
    }
  }

  /** A length above 64 MiB is refused before anything behind it is read. */
  lemma FrameTooLarge(n: uint32, rest: bytes)
    requires n > 64 * 1024 * 1024
    ensures ParseFrame(BE32(n) + rest) == TooLarge
  {
    hide BE32, FromBE32;
    BE32RoundTrip(n, rest);
  }

  method WriteFrame(w: Writer, body: bytes) returns (ok: bool)
    modifies w
    ensures ok <==> |body| <= MAX_FRAME
    ensures w.out == if ok then old(w.out) + Frame(body) else old(w.out)
  {
    hide BE32, U32Of;
    if |body| > MAX_FRAME {
      return false;
    }
    w.Write(BE32(U32Of(|body|)));
    w.Write(body);
    return true;
  }

  method ReadFrame(r: Reader) returns (f: FrameRead)
    modifies r
    ensures f == ParseFrame(old(r.rest))
    ensures f.Body? ==> r.rest == f.rest
  {
    hide FromBE32;
    var hdr := r.ReadFull(4);
    match hdr
    case EOF => return End;
    case UnexpectedEOF => return Short;
    case Full(h) =>
      SameWord(h, old(r.rest));
      var n := FromBE32(h);
      if n > MAX_FRAME {
        return TooLarge;
      }
      var body := r.ReadFull(n);
      match body
      case EOF => return End;
      case UnexpectedEOF => return Short;
      case Full(d) =>
        assert d == old(r.rest)[4..4 + n];
        return Body(d, r.rest);
  }

  // ---- requests ----------------------------------------------------------------------------------------

  predicate KnownOp(op: byte) { OP_STAT <= op <= OP_SERVERINFO }

  function RequestFields(q: Request): seq<Field> {
    [F8(q.op)] +
    if q.op == OP_STAT || q.op == OP_READDIR then [FBlob(q.path)]
    else if q.op == OP_OPEN then [F32(q.flags), FBlob(q.path)]
    else if q.op == OP_PREAD then [F64(q.handle), F64(U64Of(q.off)), F32(q.len)]
    else if q.op == OP_WRITEFILE then [FBlob(q.path), FBlob(q.data)]
    else if q.op == OP_CLOSE then [F64(q.handle)]
    else if q.op == OP_PWRITE then [F64(q.handle), F64(U64Of(q.off)), FBlob(q.data)]
    else if q.op == OP_CREATE then [FBlob(q.path), F32(q.flags), F32(q.mode)]
    else if q.op == OP_UNLINK then [FBlob(q.path), F32(q.flags)]
    else if q.op == OP_MKDIR then [FBlob(q.path), F32(q.mode)]
    else if q.op == OP_RENAME then [FBlob(q.path), FBlob(q.path2)]
    else if q.op == OP_SETATTR then
      [FBlob(q.path), F32(q.mask), F32(q.mode), F64(U64Of(q.size)), F64(U64Of(q.atime)), F64(U64Of(q.mtime))]
    else []
  }

  function RequestKinds(op: byte): seq<Kind> {
    [K8] +
    if op == OP_STAT || op == OP_READDIR then [KBlob]
    else if op == OP_OPEN then [K32, KBlob]
    else if op == OP_PREAD then [K64, K64, K32]
    else if op == OP_WRITEFILE then [KBlob, KBlob]
    else if op == OP_CLOSE then [K64]
    else if op == OP_PWRITE then [K64, K64, KBlob]
    else if op == OP_CREATE then [KBlob, K32, K32]
    else if op == OP_UNLINK then [KBlob, K32]
    else if op == OP_MKDIR then [KBlob, K32]
    else if op == OP_RENAME then [KBlob, KBlob]
    else if op == OP_SETATTR then [KBlob, K32, K32, K64, K64, K64]
    else []
  }

  function RequestOf(fs: seq<Field>): Request
    requires fs != [] && fs[0].F8? && KindsOf(fs) == RequestKinds(fs[0].v)
  {
    var op := fs[0].v;
    var q := Blank(op);
    var ks := KindsOf(fs);
    if op == OP_STAT || op == OP_READDIR then q.(path := BlobAt(fs, 1))
    else if op == OP_OPEN then q.(flags := WordAt(fs, 1), path := BlobAt(fs, 2))
    else if op == OP_PREAD then q.(handle := QuadAt(fs, 1), off := I64Of(QuadAt(fs, 2)), len := WordAt(fs, 3))
    else if op == OP_WRITEFILE then q.(path := BlobAt(fs, 1), data := BlobAt(fs, 2))
    else if op == OP_CLOSE then q.(handle := QuadAt(fs, 1))
    else if op == OP_PWRITE then q.(handle := QuadAt(fs, 1), off := I64Of(QuadAt(fs, 2)), data := BlobAt(fs, 3))
    else if op == OP_CREATE then q.(path := BlobAt(fs, 1), flags := WordAt(fs, 2), mode := WordAt(fs, 3))
    else if op == OP_UNLINK then q.(path := BlobAt(fs, 1), flags := WordAt(fs, 2))
    else if op == OP_MKDIR then q.(path := BlobAt(fs, 1), mode := WordAt(fs, 2))
    else if op == OP_RENAME then q.(path := BlobAt(fs, 1), path2 := BlobAt(fs, 2))
    else if op == OP_SETATTR then
      q.(path := BlobAt(fs, 1), mask := WordAt(fs, 2), mode := WordAt(fs, 3), size := I64Of(QuadAt(fs, 4)),
         atime := I64Of(QuadAt(fs, 5)), mtime := I64Of(QuadAt(fs, 6)))
    else q
  }

  function WordAt(fs: seq<Field>, i: nat): uint32
    requires i < |KindsOf(fs)| && KindsOf(fs)[i] == K32
  {
    fs[i].n
  }

  function QuadAt(fs: seq<Field>, i: nat): uint64
    requires i < |KindsOf(fs)| && KindsOf(fs)[i] == K64
  {
    fs[i].q
  }

  function BlobAt(fs: seq<Field>, i: nat): bytes
    requires i < |KindsOf(fs)| && KindsOf(fs)[i] == KBlob
  {
    fs[i].b
  }

  /** The body of a request, or nothing for an op the writer does not know. */
  function EncodeRequest(q: Request): Option<bytes> {
    if KnownOp(q.op) then Some(EncFields(RequestFields(q))) else None
  }

  function DecodeRequest(body: bytes): Option<Request> {
    var head :- ParseFields([K8], body);
    var op := head.fields[0].v;
    if !KnownOp(op) then None
    else
      var all :- ParseFields(RequestKinds(op), body);
      OpIsFirst(op, body);
      Some(RequestOf(all.fields))
  }

  /** The op read alone is the op read with the rest of the layout. */
  lemma OpIsFirst(op: byte, body: bytes)
    requires ParseFields([K8], body).Some? && ParseFields([K8], body).value.fields[0].v == op
    requires ParseFields(RequestKinds(op), body).Some?
    ensures var fs := ParseFields(RequestKinds(op), body).value.fields;
            fs != [] && fs[0] == F8(op)
  {
    hide ParseField;
    var ks := RequestKinds(op);
    ParsePrefix(ks, 1, body);
    assert ks[..1] == [K8];
  }

  lemma {:induction false} ParsePrefix(ks: seq<Kind>, k: nat, b: bytes)
    requires k <= |ks| && ParseFields(ks, b).Some?
    ensures ParseFields(ks[..k], b).Some?
    ensures ParseFields(ks[..k], b).value.fields == ParseFields(ks, b).value.fields[..k]
  {
    hide ParseField;
    if k == |ks| {
      assert ks[..k] == ks;
    } else {
      var init := ks[..|ks| - 1];
      ParsePrefix(init, k, b);
      assert init[..k] == ks[..k];
      assert ParseFields(ks, b).value.fields[..k] == ParseFields(init, b).value.fields[..k];
    }
  }

  /** A request as it arrives: only the fields its op carries. */
  function Relevant(q: Request): Request {
    var r := Blank(q.op);
    if q.op == OP_STAT || q.op == OP_READDIR then r.(path := q.path)
    else if q.op == OP_OPEN then r.(flags := q.flags, path := q.path)
    else if q.op == OP_PREAD then r.(handle := q.handle, off := q.off, len := q.len)
    else if q.op == OP_WRITEFILE then r.(path := q.path, data := q.data)
    else if q.op == OP_CLOSE then r.(handle := q.handle)
    else if q.op == OP_PWRITE then r.(handle := q.handle, off := q.off, data := q.data)
    else if q.op == OP_CREATE then r.(path := q.path, flags := q.flags, mode := q.mode)
    else if q.op == OP_UNLINK then r.(path := q.path, flags := q.flags)
    else if q.op == OP_MKDIR then r.(path := q.path, mode := q.mode)
    else if q.op == OP_RENAME then r.(path := q.path, path2 := q.path2)
    else if q.op == OP_SETATTR then
      r.(path := q.path, mask := q.mask, mode := q.mode, size := q.size, atime := q.atime, mtime := q.mtime)
    else r
  }

  lemma RelevantIsSent(q: Request)
    ensures KindsOf(RequestFields(q)) == RequestKinds(q.op)
    ensures RequestOf(RequestFields(q)) == Relevant(q)
  {
    hide U64Of, I64Of;
    assert RequestFields(q)[0] == F8(q.op);
    SignedFields(q);
  }

  lemma SignedFields(q: Request)
    ensures I64Of(U64Of(q.off)) == q.off && I64Of(U64Of(q.size)) == q.size
    ensures I64Of(U64Of(q.atime)) == q.atime && I64Of(U64Of(q.mtime)) == q.mtime
  {
  }

  /** An encoded request decodes to its op's fields, whatever bytes follow it in the body. */
  lemma RequestRoundTrip(q: Request, extra: bytes)
    requires KnownOp(q.op) && AllFit(RequestFields(q))
    ensures DecodeRequest(EncFields(RequestFields(q)) + extra) == Some(Relevant(q))
  {
    hide ParseField, EncField, EncFields, RequestOf, Relevant, RequestFields;
    var fs := RequestFields(q);
    var body := EncFields(fs) + extra;
    RelevantIsSent(q);
    FieldsRoundTrip(fs, extra);
    ParsePrefix(RequestKinds(q.op), 1, body);
    assert RequestKinds(q.op)[..1] == [K8];
    assert fs[0] == F8(q.op) by {
      FirstFieldIsOp(q);
    }
  }

  lemma FirstFieldIsOp(q: Request)
    ensures RequestFields(q) != [] && RequestFields(q)[0] == F8(q.op)
  {
  }

  /** No strict prefix of an encoded request decodes. */
  lemma RequestTruncated(q: Request, p: bytes)
    requires KnownOp(q.op) && AllFit(RequestFields(q))
    requires p < EncFields(RequestFields(q))
    ensures DecodeRequest(p) == None
  {
    hide ParseField, EncField, RequestOf, RequestFields;
    var fs := RequestFields(q);
    RelevantIsSent(q);
    FieldsTruncated(fs, p);
    FirstFieldIsOp(q);
    if p != [] {
      FirstByte(fs, p);
      OneByteOp(p);
    } else {
      EmptyHasNoOp();
    }
  }

  lemma {:induction false} FirstByte(fs: seq<Field>, p: bytes)
    requires fs != [] && fs[0].F8? && p <= EncFields(fs) && p != []
    ensures p[0] == fs[0].v
  {
    assert EncFields(fs) != [];
    assert p[0] == EncFields(fs)[0];
    EncodingStartsWithFirst(fs);
  }

  lemma {:induction false} EncodingStartsWithFirst(fs: seq<Field>)
    requires fs != [] && fs[0].F8?
    ensures EncFields(fs) != [] && EncFields(fs)[0] == fs[0].v
  {
    EncFieldsConcat(fs[..1], fs[1..]);
    assert fs[..1] + fs[1..] == fs;
    assert fs[..1][..0] == [];
    assert EncFields(fs[..1]) == [] + EncField(fs[0]);
  }

  lemma OneByteOp(p: bytes)
    requires p != []
    ensures ParseFields([K8], p) == Some(ParsedAll([F8(p[0])], p[1..]))
  {
    assert [K8][..0] == [];
    assert ParseFields([], p) == Some(ParsedAll([], p));
    assert [] + [F8(p[0])] == [F8(p[0])];
  }

  lemma EmptyHasNoOp()
    ensures ParseFields([K8], []) == None
  {
    assert [K8][..0] == [];
  }

  lemma {:induction false} BoundedBodyFits(fs: seq<Field>)
    requires |EncFields(fs)| <= MAX_FRAME
    ensures AllFit(fs)
  {
    hide BE32, BE64;
    if fs != [] {
      var init := fs[..|fs| - 1];
      BoundedBodyFits(init);
      forall i | 0 <= i < |fs|
        ensures Fits(fs[i])
      {
        if i < |init| {
          assert init[i] == fs[i];
        }
      }
    }
  }

  // ---- the bytes of a request ----------------------------------------------------------------------------

  /** A length and the bytes. */
  function BlobBytes(b: bytes): bytes { BE32(U32Of(|b|)) + b }

  /** A signed number in 64 bits. */
  function SignedBytes(i: int64): bytes { BE64(U64Of(i)) }

  /** The layout of every request, byte by byte; an op outside 1 to 13 has none. */
  function RequestBytes(q: Request): Option<bytes> {
    match q.op
    case 1 => Some([1] + BlobBytes(q.path))
    case 2 => Some([2] + BE32(q.flags) + BlobBytes(q.path))
    case 3 => Some([3] + BE64(q.handle) + SignedBytes(q.off) + BE32(q.len))
    case 4 => Some([4] + BlobBytes(q.path) + BlobBytes(q.data))
    case 5 => Some([5] + BE64(q.handle))
    case 6 => Some([6] + BlobBytes(q.path))
    case 7 => Some([7] + BE64(q.handle) + SignedBytes(q.off) + BlobBytes(q.data))
    case 8 => Some([8] + BlobBytes(q.path) + BE32(q.flags) + BE32(q.mode))
    case 9 => Some([9] + BlobBytes(q.path) + BE32(q.flags))
    case 10 => Some([10] + BlobBytes(q.path) + BE32(q.mode))
    case 11 => Some([11] + BlobBytes(q.path) + BlobBytes(q.path2))
    case 12 =>
      Some([12] + BlobBytes(q.path) + BE32(q.mask) + BE32(q.mode) + SignedBytes(q.size) + SignedBytes(q.atime)
           + SignedBytes(q.mtime))
    case 13 => Some([13])
    case _ => None
  }

  lemma RequestLayout(q: Request)
    ensures EncodeRequest(q) == RequestBytes(q)
  {
    hide EncFields, BE32, BE64, U32Of, U64Of;
    var tag, path, data := F8(q.op), FBlob(q.path), FBlob(q.data);
    if q.op == 12 {
      SetattrLayout(q);
    } else if 1 <= q.op <= 13 {
      EncOne(tag);
      EncTwo(tag, path);
      EncTwo(tag, F64(q.handle));
      EncThree(tag, F32(q.flags), path);
      EncThree(tag, path, data);
      EncThree(tag, path, F32(q.flags));
      EncThree(tag, path, F32(q.mode));
      EncThree(tag, path, FBlob(q.path2));
      EncFour(tag, F64(q.handle), F64(U64Of(q.off)), F32(q.len));
      EncFour(tag, F64(q.handle), F64(U64Of(q.off)), data);
      EncFour(tag, path, F32(q.flags), F32(q.mode));
      ShortLayouts(q);
    }
  }

  lemma ShortLayouts(q: Request)
    requires 1 <= q.op <= 13 && q.op != 12
    ensures var tag, path, data, fs := F8(q.op), FBlob(q.path), FBlob(q.data), RequestFields(q);
            && (q.op == 1 || q.op == 6 ==> fs == [tag, path])
            && (q.op == 2 ==> fs == [tag, F32(q.flags), path])
            && (q.op == 3 ==> fs == [tag, F64(q.handle), F64(U64Of(q.off)), F32(q.len)])
            && (q.op == 4 ==> fs == [tag, path, data])
            && (q.op == 5 ==> fs == [tag, F64(q.handle)])
            && (q.op == 7 ==> fs == [tag, F64(q.handle), F64(U64Of(q.off)), data])
            && (q.op == 8 ==> fs == [tag, path, F32(q.flags), F32(q.mode)])
            && (q.op == 9 ==> fs == [tag, path, F32(q.flags)])
            && (q.op == 10 ==> fs == [tag, path, F32(q.mode)])
            && (q.op == 11 ==> fs == [tag, path, FBlob(q.path2)])
            && (q.op == 13 ==> fs == [tag])
  {
    hide U64Of;
  }

  lemma SetattrLayout(q: Request)
    requires q.op == 12
    ensures EncodeRequest(q) == RequestBytes(q)
  {
    hide EncFields, BE32, BE64, U32Of, U64Of;
    var tag, path, size, at, mt := F8(12), FBlob(q.path), F64(U64Of(q.size)), F64(U64Of(q.atime)), F64(U64Of(q.mtime));
    EncFive(tag, path, F32(q.mask), F32(q.mode), size);
    EncFieldsSnoc([tag, path, F32(q.mask), F32(q.mode), size], at);
    EncFieldsSnoc([tag, path, F32(q.mask), F32(q.mode), size] + [at], mt);
    assert RequestFields(q) == [tag, path, F32(q.mask), F32(q.mode), size] + [at] + [mt];
  }

  lemma OpByte(body: bytes)
    ensures ParseFields([K8], body) == if body == [] then None else Some(ParsedAll([F8(body[0])], body[1..]))
  {
    var one: seq<Kind> := [K8];
    assert one[..0] == [] && ParseFields([], body) == Some(ParsedAll([], body));
    assert [] + [F8(if body == [] then 0 else body[0])] == [F8(if body == [] then 0 else body[0])];
  }

  /** Only the thirteen ops are decoded, and each as itself. */
  lemma DecodedOp(body: bytes)
    requires DecodeRequest(body).Some?
    ensures body != [] && 1 <= body[0] <= 13 && DecodeRequest(body).value.op == body[0]
  {
    hide ParseField, RequestOf;
    OpByte(body);
    OpIsFirst(body[0], body);
    OpOfFields(ParseFields(RequestKinds(body[0]), body).value.fields, body[0]);
  }

  lemma OpOfFields(fs: seq<Field>, op: byte)
    requires fs != [] && fs[0] == F8(op) && KindsOf(fs) == RequestKinds(op)
    ensures RequestOf(fs).op == op
  {
  }

  /** A request that can be put in a frame. */
  predicate Sendable(q: Request) { KnownOp(q.op) && |EncFields(RequestFields(q))| <= MAX_FRAME }

  function RequestFrame(q: Request): bytes { Frame(EncFields(RequestFields(q))) }

  method WriteRequest(w: Writer, q: Request) returns (ok: bool)
    modifies w
    ensures ok <==> Sendable(q)
    ensures w.out == if ok then old(w.out) + RequestFrame(q) else old(w.out)
  {
    hide EncFields, Frame;
    var e := new Builder();
    e.U8(q.op);
    if q.op == OP_STAT || q.op == OP_READDIR {
      e.Blob(q.path);
    } else if q.op == OP_OPEN {
      e.U32(q.flags);
      e.Blob(q.path);
    } else if q.op == OP_PREAD {
      e.U64(q.handle);
      e.I64(q.off);
      e.U32(q.len);
    } else if q.op == OP_WRITEFILE {
      e.Blob(q.path);
      e.Blob(q.data);
    } else if q.op == OP_CLOSE {
      e.U64(q.handle);
    } else if q.op == OP_PWRITE {
      e.U64(q.handle);
      e.I64(q.off);
      e.Blob(q.data);
    } else if q.op == OP_CREATE {
      e.Blob(q.path);
      e.U32(q.flags);
      e.U32(q.mode);
    } else if q.op == OP_UNLINK {
      e.Blob(q.path);
      e.U32(q.flags);
    } else if q.op == OP_MKDIR {
      e.Blob(q.path);
      e.U32(q.mode);
    } else if q.op == OP_RENAME {
      e.Blob(q.path);
      e.Blob(q.path2);
    } else if q.op == OP_SETATTR {
      e.Blob(q.path);
      e.U32(q.mask);
      e.U32(q.mode);
      e.I64(q.size);
      e.I64(q.atime);
      e.I64(q.mtime);
    } else if q.op != OP_SERVERINFO {
      return false;
    }
    assert e.fields == RequestFields(q);
    ok := WriteFrame(w, e.b);
  }

  method ReadRequestBody(body: bytes) returns (r: Option<Request>)
    ensures r == DecodeRequest(body)
  {
    hide ParseFields, RequestOf, RequestKinds;
    var p := new Parser(body);
    var op := p.U8();
    assert [] + [K8] == [K8] && [] + [F8(op)] == [F8(op)];
    if p.err {
      return None;
    }
    if !KnownOp(op) {
      return None;
    }
    var q;
    if op == OP_PREAD || op == OP_CLOSE || op == OP_PWRITE {
      q := ReadHandleFields(p, op);
    } else {
      q := ReadPathFields(p, op);
    }
    if p.err {
      return None;
    }
    return Some(q);
  }

  method ReadHandleFields(p: Parser, op: byte) returns (q: Request)
    requires p.Valid() && !p.err && p.kinds == [K8] && p.done == [F8(op)]
    requires op == OP_PREAD || op == OP_CLOSE || op == OP_PWRITE
    modifies p
    ensures p.Valid() && p.kinds == RequestKinds(op)
    ensures !p.err ==> p.done != [] && p.done[0] == F8(op) && KindsOf(p.done) == RequestKinds(op)
                       && q == RequestOf(p.done)
  {
    hide ParseFields, I64Of;
    q := Blank(op);
    var handle := p.U64();
    q := q.(handle := handle);
    if op == OP_PREAD {
      var off := p.U64();
      var len := p.U32();
      q := q.(off := I64Of(off), len := len);
    } else if op == OP_PWRITE {
      var off := p.U64();
      var data := p.Blob();
      q := q.(off := I64Of(off), data := data);
    }
    assert p.kinds == RequestKinds(op);
    if !p.err {
      KindsWhenValid(p);
    }
  }

  lemma KindsWhenValid(p: Parser)
    requires p.Valid() && !p.err
    ensures KindsOf(p.done) == p.kinds
  {
  }

  method ReadPathFields(p: Parser, op: byte) returns (q: Request)
    requires p.Valid() && !p.err && p.kinds == [K8] && p.done == [F8(op)]
    requires KnownOp(op) && op != OP_PREAD && op != OP_CLOSE && op != OP_PWRITE
    modifies p
    ensures p.Valid() && p.kinds == RequestKinds(op)
    ensures !p.err ==> p.done != [] && p.done[0] == F8(op) && KindsOf(p.done) == RequestKinds(op)
                       && q == RequestOf(p.done)
  {
    hide ParseFields, I64Of;
    q := Blank(op);
    if op == OP_STAT || op == OP_READDIR {
      var path := p.Blob();
      q := q.(path := path);
    } else if op == OP_OPEN {
      var flags := p.U32();
      var path := p.Blob();
      q := q.(flags := flags, path := path);
    } else if op == OP_WRITEFILE {
      var path := p.Blob();
      var data := p.Blob();
      q := q.(path := path, data := data);
    } else if op == OP_CREATE {
      var path := p.Blob();
      var flags := p.U32();
      var mode := p.U32();
      q := q.(path := path, flags := flags, mode := mode);
    } else if op == OP_UNLINK {
      var path := p.Blob();
      var flags := p.U32();
      q := q.(path := path, flags := flags);
    } else if op == OP_MKDIR {
      var path := p.Blob();
      var mode := p.U32();
      q := q.(path := path, mode := mode);
    } else if op == OP_RENAME {
      var path := p.Blob();
      var path2 := p.Blob();
      q := q.(path := path, path2 := path2);
    } else if op == OP_SETATTR {
      q := ReadSetattrFields(p);
    }
    assert p.kinds == RequestKinds(op);
    if !p.err {
      KindsWhenValid(p);
    }
  }

  method ReadSetattrFields(p: Parser) returns (q: Request)
    requires p.Valid() && !p.err && p.kinds == [K8] && p.done == [F8(OP_SETATTR)]
    modifies p
    ensures p.Valid() && p.kinds == RequestKinds(OP_SETATTR)
    ensures !p.err ==> p.done != [] && p.done[0] == F8(OP_SETATTR) && KindsOf(p.done) == RequestKinds(OP_SETATTR)
                       && q == RequestOf(p.done)
  {
    hide ParseFields, I64Of;
    var path := p.Blob();
    var mask := p.U32();
    var mode := p.U32();
    var size := p.U64();
    var atime := p.U64();
    var mtime := p.U64();
    q := Blank(OP_SETATTR).(path := path, mask := mask, mode := mode, size := I64Of(size), atime := I64Of(atime),
                            mtime := I64Of(mtime));
    assert p.kinds == RequestKinds(OP_SETATTR);
    if !p.err {
      KindsWhenValid(p);
    }
  }

  /** One framed request off a stream: nothing at a clean end, at a broken frame or at an undecodable body. */
  method ReadRequest(r: Reader) returns (q: Option<Request>)
    modifies r
    ensures var f := ParseFrame(old(r.rest));
            if f.Body? then q == DecodeRequest(f.body) && r.rest == f.rest else q == None
  {
    hide ParseFrame, DecodeRequest;
    var f := ReadFrame(r);
    if !f.Body? {
      return None;
    }
    q := ReadRequestBody(f.body);
  }

  function RequestStream(qs: seq<Request>): bytes {
    if qs == [] then [] else RequestFrame(qs[0]) + RequestStream(qs[1..])
  }

  /** What a server reads off a stream, and whether it got to a clean end. */
  datatype Served = Served(requests: seq<Request>, clean: bool)

  function ReadRequests(b: bytes): Served
    decreases |b|
  {
    match ParseFrame(b)
    case Body(body, rest) =>
      (match DecodeRequest(body)
       case None => Served([], false)
       case Some(q) => var more := ReadRequests(rest); Served([q] + more.requests, more.clean))
    case End => Served([], true)
    case _ => Served([], false)
  }

  function AllRelevant(qs: seq<Request>): seq<Request> {
    if qs == [] then [] else [Relevant(qs[0])] + AllRelevant(qs[1..])
  }

  lemma RequestFrameRoundTrip(q: Request, rest: bytes)
    requires Sendable(q)
    ensures ParseFrame(RequestFrame(q) + rest) == Body(EncFields(RequestFields(q)), rest)
    ensures DecodeRequest(EncFields(RequestFields(q))) == Some(Relevant(q))
  {
    hide EncFields, RequestFields, Relevant, DecodeRequest, ParseFrame, Frame;
    var body := EncFields(RequestFields(q));
    FrameRoundTrip(body, rest);
    BoundedBodyFits(RequestFields(q));
    RequestRoundTrip(q, []);
    assert body + [] == body;
  }

  /** A stream of framed requests decodes to exactly those requests, each reduced to its op's fields, with nothing
      left over. */
  lemma {:induction false} RequestStreamRoundTrip(qs: seq<Request>)
    requires forall i :: 0 <= i < |qs| ==> Sendable(qs[i])
    ensures ReadRequests(RequestStream(qs)) == Served(AllRelevant(qs), true)
  {
    hide EncFields, RequestFields, Relevant, DecodeRequest, ParseFrame, RequestFrame, Sendable;
    if qs == [] {
      NothingIsEnd();
    } else {
      RequestFrameRoundTrip(qs[0], RequestStream(qs[1..]));
      RequestStreamRoundTrip(qs[1..]);
    }
  }

  lemma NothingIsEnd()
    ensures ParseFrame([]) == End
  {
  }
}
